/** The ParticleTrail: every mouse move outside the design-arsenal area
    appends a particle with the next id from a counter, keeping only the last
    20 earlier particles (`[...prev.slice(-20), newParticle]`), and schedules
    a 1000 ms timeout that filters that particle out again by id.

    `elementFromPoint(...).closest('[data-arsenal]')` and the two
    `Math.random()` draws (size, hue) are inputs of the mouse-move event. */
module ParticleTrail {
  import opened Util

  const KeepCount: nat := 20
  const LifetimeMs: nat := 1000

  datatype Particle = Particle(id: nat, x: int, y: int, size: real, hue: real)

  /** `s.slice(-k)`: for k > 0 the last min(k, |s|) elements; since `-0`
      is `0`, `slice(-0)` keeps the whole array. */
  function KeepLast<T>(s: seq<T>, k: nat): (r: seq<T>)
    ensures k == 0 ==> r == s
    ensures k > 0 ==> |r| == Min(|s|, k) && r == s[|s| - |r|..]
  {
    if k == 0 || |s| <= k then s else s[|s| - k..]
  }

  /** The update of the particle list on a new particle. */
  function Append(ps: seq<Particle>, p: Particle): (r: seq<Particle>)
    ensures |r| <= KeepCount + 1 && |r| == Min(|ps|, KeepCount) + 1
    ensures r[|r| - 1] == p && r[..|r| - 1] == ps[|ps| - Min(|ps|, KeepCount)..]
  {
    KeepLast(ps, KeepCount) + [p]
  }

  /** `ps.filter(p => p.id !== id)`. */
  function Without(ps: seq<Particle>, id: nat): (r: seq<Particle>)
    ensures |r| <= |ps|
    decreases |ps|
  {
    if ps == [] then []
    else (if ps[0].id == id then [] else [ps[0]]) + Without(ps[1..], id)
  }

  /** The filter keeps exactly the particles whose id differs. */
  lemma {:induction false} WithoutMembers(ps: seq<Particle>, id: nat)
    ensures forall q :: q in Without(ps, id) <==> q in ps && q.id != id
    decreases |ps|
  {
    if ps != [] {
      WithoutMembers(ps[1..], id);
      assert ps == [ps[0]] + ps[1..];
    }
  }

  /** Ids strictly increase along the list (so they are unique). */
  predicate IdsIncreasing(ps: seq<Particle>)
  {
    forall i, j :: 0 <= i < j < |ps| ==> ps[i].id < ps[j].id
  }

  /** Filtering out an id that is not in the list changes nothing. */
  lemma {:induction false} WithoutAbsent(ps: seq<Particle>, id: nat)
    requires forall q :: q in ps ==> q.id != id
    ensures Without(ps, id) == ps
    decreases |ps|
  {
    if ps != [] {
      WithoutAbsent(ps[1..], id);
      assert ps == [ps[0]] + ps[1..];
    }
  }

  /** Filtering out an id that only one particle has drops exactly that
      particle and keeps the others in order. */
  lemma {:induction false} WithoutOnly(ps: seq<Particle>, k: nat)
    requires k < |ps| && forall j :: 0 <= j < |ps| && j != k ==> ps[j].id != ps[k].id
    ensures Without(ps, ps[k].id) == ps[..k] + ps[k + 1..]
    decreases |ps|
  {
    var id := ps[k].id;
    var tail := ps[1..];
    if k == 0 {
      assert forall q :: q in tail ==> q.id != id by {
        forall q | q in tail ensures q.id != id {
          var j :| 0 <= j < |tail| && tail[j] == q;
          assert q == ps[j + 1];
        }
      }
      WithoutAbsent(tail, id);
    } else {
      assert forall j :: 0 <= j < |tail| && j != k - 1 ==> tail[j].id != tail[k - 1].id by {
        forall j | 0 <= j < |tail| && j != k - 1 ensures tail[j].id != tail[k - 1].id {
          assert tail[j] == ps[j + 1];
        }
      }
      WithoutOnly(tail, k - 1);
      assert tail[k - 1] == ps[k];
      assert Without(ps, id) == [ps[0]] + (tail[..k - 1] + tail[k..]);
      assert tail[..k - 1] == ps[1..k];
      assert tail[k..] == ps[k + 1..];
      assert [ps[0]] + ps[1..k] == ps[..k];
    }
  }

  /** With ids increasing, filtering by the id of particle k drops exactly
      that particle. */
  lemma WithoutPresent(ps: seq<Particle>, k: nat)
    requires IdsIncreasing(ps) && k < |ps|
    ensures Without(ps, ps[k].id) == ps[..k] + ps[k + 1..]
  {
    assert forall j :: 0 <= j < |ps| && j != k ==> ps[j].id != ps[k].id;
    WithoutOnly(ps, k);
  }

  /** The state: the rendered list, the closure's id counter and the ids
      whose removal timeouts are pending, in the order they will fire. */
  datatype State = State(particles: seq<Particle>, particleId: nat, pending: seq<nat>)

  const Initial: State := State([], 0, [])

  predicate Increasing(s: seq<nat>)
  {
    forall i, j :: 0 <= i < j < |s| ==> s[i] < s[j]
  }

  ghost predicate Inv(s: State)
  {
    && IdsIncreasing(s.particles)
    && Increasing(s.pending)
    && (forall q :: q in s.particles ==> q.id < s.particleId && q.id in s.pending)
    && (forall i :: i in s.pending ==> i < s.particleId)
  }

  /** A mouse move: over the arsenal nothing happens; elsewhere a particle
      with the next id is appended and its removal scheduled. */
  function MouseMove(s: State, x: int, y: int, inArsenal: bool, size: real, hue: real): (r: State)
    ensures inArsenal ==> r == s
    ensures !inArsenal ==>
      && r.particleId == s.particleId + 1
      && r.particles == Append(s.particles, Particle(s.particleId, x, y, size, hue))
      && r.pending == s.pending + [s.particleId]
  {
    if inArsenal then s
    else State(Append(s.particles, Particle(s.particleId, x, y, size, hue)), s.particleId + 1, s.pending + [s.particleId])
  }

  /** Appending a particle whose id exceeds all others keeps ids increasing. */
  lemma AppendIncreasing(ps: seq<Particle>, p: Particle)
    requires IdsIncreasing(ps) && forall i :: 0 <= i < |ps| ==> ps[i].id < p.id
    ensures IdsIncreasing(Append(ps, p))
  {
    var kept := KeepLast(ps, KeepCount);
    var off := |ps| - |kept|;
    assert kept == ps[off..];
    var r := kept + [p];
    assert Append(ps, p) == r;
    forall i, j | 0 <= i < j < |r| ensures r[i].id < r[j].id {
      assert r[i] == kept[i] == ps[off + i];
      if j < |kept| {
        assert r[j] == kept[j] == ps[off + j];
      } else {
        assert r[j] == p;
      }
    }
  }

  /** Appending a larger number keeps a sequence increasing. */
  lemma PushIncreasing(s: seq<nat>, x: nat)
    requires Increasing(s) && forall i :: 0 <= i < |s| ==> s[i] < x
    ensures Increasing(s + [x])
  {
    var r := s + [x];
    forall i, j | 0 <= i < j < |r| ensures r[i] < r[j] {
      assert r[i] == s[i];
      if j < |s| {
        assert r[j] == s[j];
      }
    }
  }

  /** The kept particles are particles of the old list. */
  lemma KeptFromOld(ps: seq<Particle>, p: Particle)
    ensures forall q :: q in Append(ps, p) ==> q == p || q in ps
  {
    var kept := KeepLast(ps, KeepCount);
    assert Append(ps, p) == kept + [p];
    forall q | q in kept ensures q in ps {
      var i :| 0 <= i < |kept| && kept[i] == q;
      assert q == ps[|ps| - |kept| + i];
    }
  }

  lemma MouseMoveInv(s: State, x: int, y: int, inArsenal: bool, size: real, hue: real)
    requires Inv(s)
    ensures Inv(MouseMove(s, x, y, inArsenal, size, hue))
  {
    if !inArsenal {
      var p := Particle(s.particleId, x, y, size, hue);
      var r := MouseMove(s, x, y, inArsenal, size, hue);
      var ps := s.particles;
      assert forall i :: 0 <= i < |ps| ==> ps[i].id < p.id by {
        forall i | 0 <= i < |ps| ensures ps[i].id < p.id {
          assert ps[i] in ps;
        }
      }
      AppendIncreasing(ps, p);
      assert forall i :: 0 <= i < |s.pending| ==> s.pending[i] < s.particleId by {
        forall i | 0 <= i < |s.pending| ensures s.pending[i] < s.particleId {
          assert s.pending[i] in s.pending;
        }
      }
      PushIncreasing(s.pending, s.particleId);
      KeptFromOld(ps, p);
    }
  }

  /** The oldest removal timeout fires and filters its particle out. */
  function Expire(s: State): (r: State)
    requires s.pending != []
    ensures r.particles == Without(s.particles, s.pending[0])
    ensures r.pending == s.pending[1..] && r.particleId == s.particleId
  {
    State(Without(s.particles, s.pending[0]), s.particleId, s.pending[1..])
  }

  /** Dropping one element keeps ids increasing. */
  lemma RemoveAtIncreasing(ps: seq<Particle>, k: nat)
    requires IdsIncreasing(ps) && k < |ps|
    ensures IdsIncreasing(ps[..k] + ps[k + 1..])
  {
    var r := ps[..k] + ps[k + 1..];
    forall i, j | 0 <= i < j < |r| ensures r[i].id < r[j].id {
      var i' := if i < k then i else i + 1;
      var j' := if j < k then j else j + 1;
      assert r[i] == ps[i'] && r[j] == ps[j'];
    }
  }

  /** Filtering keeps the ids increasing. */
  lemma WithoutIncreasing(ps: seq<Particle>, id: nat)
    requires IdsIncreasing(ps)
    ensures IdsIncreasing(Without(ps, id))
  {
    if k :| 0 <= k < |ps| && ps[k].id == id {
      WithoutPresent(ps, k);
      RemoveAtIncreasing(ps, k);
    } else {
      assert forall q :: q in ps ==> q.id != id;
      WithoutAbsent(ps, id);
    }
  }

  lemma ExpireInv(s: State)
    requires Inv(s) && s.pending != []
    ensures Inv(Expire(s))
  {
    var id := s.pending[0];
    var r := Expire(s);
    WithoutIncreasing(s.particles, id);
    WithoutMembers(s.particles, id);
    forall q | q in r.particles ensures q.id in r.pending {
      assert q in s.particles && q.id != id;
      var j :| 0 <= j < |s.pending| && s.pending[j] == q.id;
      assert r.pending[j - 1] == q.id;
    }
    forall i, j | 0 <= i < j < |r.pending| ensures r.pending[i] < r.pending[j] {
      assert r.pending[i] == s.pending[i + 1] && r.pending[j] == s.pending[j + 1];
    }
    assert forall i :: i in r.pending ==> i in s.pending;
  }

  /** After any add the list holds at most 21 particles. */
  lemma AddBound(s: State, x: int, y: int, size: real, hue: real)
    ensures |MouseMove(s, x, y, false, size, hue).particles| <= KeepCount + 1
  {
  }

  /** The removal timeout of a particle already evicted by later moves
      finds nothing to remove. */
  lemma ExpireEvicted(s: State)
    requires Inv(s) && s.pending != [] && forall q :: q in s.particles ==> q.id != s.pending[0]
    ensures Expire(s).particles == s.particles
  {
    WithoutAbsent(s.particles, s.pending[0]);
  }

  /** The mounted component: the rendered list, the id counter captured by
      the listener's closure, and the pending removal timeouts. */
  class Trail {
    var particles: seq<Particle>
    var particleId: nat
    var pending: seq<nat>

    function Snapshot(): State
      reads this
    {
      State(particles, particleId, pending)
    }

    ghost predicate Valid()
      reads this
    {
      Inv(Snapshot())
    }

    constructor ()
      ensures Snapshot() == Initial && Valid()
    {
      particles, particleId, pending := [], 0, [];
    }

    method HandleMouseMove(x: int, y: int, inArsenal: bool, size: real, hue: real)
      requires Valid()
      modifies this
      ensures Valid() && Snapshot() == MouseMove(old(Snapshot()), x, y, inArsenal, size, hue)
    {
      if inArsenal {
        return;
      }
      var p := Particle(particleId, x, y, size, hue);
      particleId := particleId + 1;
      MouseMoveInv(old(Snapshot()), x, y, inArsenal, size, hue);
      particles := KeepLast(particles, KeepCount) + [p];
      pending := pending + [p.id];
    }

    method OnRemovalTimeout()
      requires Valid() && pending != []
      modifies this
      ensures Valid() && Snapshot() == Expire(old(Snapshot()))
    {
      ExpireInv(Snapshot());
      var id := pending[0];
      particles := Without(particles, id);
      pending := pending[1..];
    }
  }
}
