/** The content of playback: waypoints assigned to the joint group of a full configuration. */
module Trajectory {

  /** A full joint configuration, or the joints of one group. */
  type Config = seq<real>

  /** numpy indexing: a negative index counts from the end. */
  predicate InRange(index: int, n: nat) {
    -(n as int) <= index < n
  }

  function Slot(index: int, n: nat): (k: nat)
    requires InRange(index, n)
    ensures k < n && (k == index || k == index + n)
  {
    if index < 0 then n + index else index
  }

  predicate Assignable(indices: seq<int>, pos: Config, n: nat) {
    |pos| == |indices| && forall k :: 0 <= k < |indices| ==> InRange(indices[k], n)
  }

  /** `q[indices] = pos`, element by element. */
  function Assign(q: Config, indices: seq<int>, pos: Config): (r: Config)
    requires Assignable(indices, pos, |q|)
    ensures |r| == |q|
    decreases |indices|
  {
    if indices == [] then q
    else
      var k := |indices| - 1;
      Assign(q, indices[..k], pos[..k])[Slot(indices[k], |q|) := pos[k]]
  }

  /** One joint: an index from -n to n - 1 sets that joint, negative ones from the end; any
      other index cannot be assigned. */
  lemma AssignByPosition(q: Config, index: int, value: real)
    ensures Assignable([index], [value], |q|) <==> -|q| <= index < |q|
    ensures 0 <= index < |q| ==> Assign(q, [index], [value]) == q[index := value]
    ensures -|q| <= index < 0 ==> Assign(q, [index], [value]) == q[|q| + index := value]
  {
    assert [index][0] == index && [index][..0] == [] && [value][..0] == [];
    if InRange(index, |q|) {
      assert Assign(q, [index], [value]) == Assign(q, [], [])[Slot(index, |q|) := value];
    }
  }

  predicate IsSlot(p: nat, indices: seq<int>, n: nat)
    requires forall k :: 0 <= k < |indices| ==> InRange(indices[k], n)
  {
    exists k :: 0 <= k < |indices| && Slot(indices[k], n) == p
  }

  /** Outside the group the result is the old configuration; inside it does not depend on it. */
  lemma {:induction false} AssignLocal(q: Config, r: Config, indices: seq<int>, pos: Config, p: nat)
    requires |q| == |r| && Assignable(indices, pos, |q|) && p < |q|
    ensures !IsSlot(p, indices, |q|) ==> Assign(q, indices, pos)[p] == q[p]
    ensures IsSlot(p, indices, |q|) ==> Assign(q, indices, pos)[p] == Assign(r, indices, pos)[p]
    decreases |indices|
  {
    if indices != [] {
      var k := |indices| - 1;
      AssignLocal(q, r, indices[..k], pos[..k], p);
      assert forall j :: 0 <= j < k ==> indices[..k][j] == indices[j];
      if Slot(indices[k], |q|) != p && IsSlot(p, indices, |q|) {
        var j :| 0 <= j < |indices| && Slot(indices[j], |q|) == p;
        assert indices[..k][j] == indices[j];
      }
    }
  }

  /** Inside the group every joint has its waypoint value exactly when no joint is given two
      different values; in particular when the indices are distinct. */
  lemma AssignInside(q: Config, indices: seq<int>, pos: Config)
    requires Assignable(indices, pos, |q|)
    ensures (forall k :: 0 <= k < |indices| ==> Assign(q, indices, pos)[Slot(indices[k], |q|)] == pos[k]) <==>
            (forall k, l :: 0 <= k < l < |indices| && Slot(indices[k], |q|) == Slot(indices[l], |q|) ==>
               pos[k] == pos[l])
  {
    if forall k, l :: 0 <= k < l < |indices| && Slot(indices[k], |q|) == Slot(indices[l], |q|) ==> pos[k] == pos[l] {
      forall k | 0 <= k < |indices|
        ensures Assign(q, indices, pos)[Slot(indices[k], |q|)] == pos[k]
      {
        AssignConsistent(q, indices, pos, k);
      }
    }
  }

  lemma {:induction false} AssignConsistent(q: Config, indices: seq<int>, pos: Config, k: nat)
    requires Assignable(indices, pos, |q|) && k < |indices|
    requires forall l :: k < l < |indices| && Slot(indices[k], |q|) == Slot(indices[l], |q|) ==> pos[k] == pos[l]
    ensures Assign(q, indices, pos)[Slot(indices[k], |q|)] == pos[k]
    decreases |indices|
  {
    var last := |indices| - 1;
    if k < last {
      assert indices[..last][k] == indices[k] && pos[..last][k] == pos[k];
      AssignConsistent(q, indices[..last], pos[..last], k);
    }
  }

  /** A waypoint erases the one before it. */
  lemma AssignTwice(q: Config, indices: seq<int>, a: Config, b: Config)
    requires Assignable(indices, a, |q|) && Assignable(indices, b, |q|)
    ensures Assign(Assign(q, indices, a), indices, b) == Assign(q, indices, b)
  {
    var r := Assign(q, indices, a);
    forall p | 0 <= p < |q|
      ensures Assign(r, indices, b)[p] == Assign(q, indices, b)[p]
    {
      AssignLocal(r, q, indices, b, p);
      AssignLocal(q, r, indices, b, p);
      AssignLocal(q, r, indices, a, p);
    }
  }

  /** The configurations a worker is meant to publish: each waypoint on the start. */
  function Frames(start: Config, indices: seq<int>, traj: seq<Config>, n: nat): seq<Config>
    requires n <= |traj| && forall i :: 0 <= i < n ==> Assignable(indices, traj[i], |start|)
  {
    seq(n, i requires 0 <= i < n => Assign(start, indices, traj[i]))
  }

  method AssignGroup(q: array<real>, indices: seq<int>, pos: Config)
    requires Assignable(indices, pos, q.Length)
    modifies q
    ensures q[..] == Assign(old(q[..]), indices, pos)
  {
    for k := 0 to |indices|
      invariant q[..] == Assign(old(q[..]), indices[..k], pos[..k])
    {
      assert indices[..k + 1][..k] == indices[..k] && pos[..k + 1][..k] == pos[..k];
      q[Slot(indices[k], q.Length)] := pos[k];
    }
    assert indices[..|indices|] == indices && pos[..|pos|] == pos;
  }

  /** The worker loop over one configuration array. `stops[i]` is the answer of `is_set`
      before waypoint i; `raised` says that an assignment failed and ended the thread. */
  method RunWorker(q: array<real>, indices: seq<int>, traj: seq<Config>, stops: seq<bool>)
    returns (published: seq<Config>, raised: bool)
    requires |stops| == |traj|
    modifies q
    ensures |published| <= |traj|
    ensures forall i :: 0 <= i < |published| ==> !stops[i] && Assignable(indices, traj[i], q.Length)
    ensures published == Frames(old(q[..]), indices, traj, |published|)
    ensures |published| < |traj| ==> stops[|published|] || raised
    ensures raised ==> |published| < |traj| && !Assignable(indices, traj[|published|], q.Length)
  {
    published, raised := [], false;
    ghost var start := q[..];
    for i := 0 to |traj|
      invariant i == |published| && !raised && |q[..]| == |start|
      invariant forall k :: 0 <= k < i ==> !stops[k] && Assignable(indices, traj[k], q.Length)
      invariant published == Frames(start, indices, traj, i)
      invariant q[..] == if i == 0 then start else Assign(start, indices, traj[i - 1])
    {
      if stops[i] {
        return;
      }
      if !Assignable(indices, traj[i], q.Length) {
        raised := true;
        return;
      }
      if i > 0 {
        AssignTwice(start, indices, traj[i - 1], traj[i]);
      }
      AssignGroup(q, indices, traj[i]);
      published := published + [q[..]];
    }
  }
}
