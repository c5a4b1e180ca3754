/** The bounded object pools of Assets/Scripts/ResourceManager.cs: active
    paths and temporary sprites are taken from a stack of unused instances,
    or created while fewer than the limit exist (or when forced), and given
    back to the stack. An instance is identified by the number of instances
    created before it. */
module ResourceManagers {
  import opened Wrappers

  /** `Awake`'s `ResourceLimits`. */
  const MaxActivePaths: int := 10_000
  const MaxTemporarySprites: int := 10

  /** One get (lines 60-78 and 88-107) on a pool's unused stack and count:
      the instance handed out, the new stack and the new count. */
  function Take(unused: seq<int>, created: int, limit: int, force: bool): (Option<int>, seq<int>, int)
  {
    if |unused| > 0 then (Some(unused[|unused| - 1]), unused[..|unused| - 1], created)
    else if !force && created >= limit then (None, unused, created)
    else (Some(created), unused, created + 1)
  }

  /** The pool's invariant: the unused instances are distinct instances
      already created. */
  ghost predicate PoolValid(unused: seq<int>, created: int)
  {
    0 <= created
    && (forall i :: 0 <= i < |unused| ==> 0 <= unused[i] < created)
    && (forall i, j :: 0 <= i < j < |unused| ==> unused[i] != unused[j])
  }

  /** Taking keeps the invariant: the instance handed out is an existing
      one no longer among the unused, or a new one. A new instance is made
      only when none is unused, and, unless forced, only below the limit,
      so an unforced take never raises the count past the limit. */
  lemma TakeKeeps(unused: seq<int>, created: int, limit: int, force: bool)
    requires PoolValid(unused, created)
    ensures var (r, unused', created') := Take(unused, created, limit, force);
      PoolValid(unused', created')
      && (r.Some? ==> 0 <= r.value < created' && r.value !in unused')
      && (r.None? <==> |unused| == 0 && !force && created >= limit)
      && (created' == created + 1 <==> |unused| == 0 && (force || created < limit))
      && (created' != created + 1 ==> created' == created)
      && (!force && created <= limit ==> created' <= limit)
  {
    if |unused| > 0 {
      var n := |unused| - 1;
      var top := unused[n];
      forall i | 0 <= i < n
        ensures unused[..n][i] != top
      {
        assert unused[..n][i] == unused[i];
      }
    }
  }

  /** `Reclaim` (lines 81-85, 110-114): the instance goes on top of the
      unused stack. Giving back an instance in use keeps the invariant, and
      the next take hands that same instance out again, leaving the pool as
      it was before. */
  lemma ReclaimThenTake(unused: seq<int>, created: int, limit: int, force: bool, x: int)
    requires PoolValid(unused, created) && 0 <= x < created && x !in unused
    ensures PoolValid(unused + [x], created)
    ensures Take(unused + [x], created, limit, force) == (Some(x), unused, created)
  {
    assert (unused + [x])[..|unused|] == unused;
  }

  /** A `Stack<T>` of unused instances and the number created. */
  class Pool {
    var unused: seq<int>
    var created: int
    var limit: int

    ghost predicate Valid()
      reads this
    {
      PoolValid(unused, created)
    }

    constructor (limit: int)
      ensures unused == [] && created == 0 && this.limit == limit && Valid()
    {
      unused := [];
      created := 0;
      this.limit := limit;
    }

    /** `GetActivePath` / `GetTemporarySprite`. */
    method Get(force: bool) returns (r: Option<int>)
      modifies this
      ensures (r, unused, created) == Take(old(unused), old(created), old(limit), force)
      ensures limit == old(limit) && (old(Valid()) ==> Valid())
    {
      if Valid() {
        TakeKeeps(unused, created, limit, force);
      }
      if |unused| > 0 {
        r := Some(unused[|unused| - 1]);
        unused := unused[..|unused| - 1];
        return;
      }
      if !force && created >= limit {
        return None;
      }
      r := Some(created);
      created := created + 1;
    }

    /** `Reclaim`: push without touching the count. */
    method Reclaim(x: int)
      modifies this
      ensures unused == old(unused) + [x] && created == old(created) && limit == old(limit)
      ensures old(Valid()) && 0 <= x < created && x !in old(unused) ==> Valid()
    {
      unused := unused + [x];
    }
  }

  /** The two pools of the resource manager. */
  class ResourceManager {
    const activePaths: Pool
    const temporarySprites: Pool

    ghost predicate Valid()
      reads this
    {
      activePaths != temporarySprites
    }

    /** `Awake` (lines 45-57). */
    constructor ()
      ensures fresh(activePaths) && fresh(temporarySprites) && Valid()
      ensures activePaths.limit == MaxActivePaths && temporarySprites.limit == MaxTemporarySprites
      ensures activePaths.unused == [] && activePaths.created == 0 && activePaths.Valid()
      ensures temporarySprites.unused == [] && temporarySprites.created == 0 && temporarySprites.Valid()
    {
      activePaths := new Pool(MaxActivePaths);
      temporarySprites := new Pool(MaxTemporarySprites);
    }

    method GetActivePath(force: bool) returns (r: Option<int>)
      requires Valid()
      modifies activePaths
      ensures (r, activePaths.unused, activePaths.created)
           == Take(old(activePaths.unused), old(activePaths.created), old(activePaths.limit), force)
      ensures activePaths.limit == old(activePaths.limit)
      ensures old(activePaths.Valid()) ==> activePaths.Valid()
    {
      r := activePaths.Get(force);
    }

    method ReclaimPath(x: int)
      requires Valid()
      modifies activePaths
      ensures activePaths.unused == old(activePaths.unused) + [x]
      ensures activePaths.created == old(activePaths.created) && activePaths.limit == old(activePaths.limit)
      ensures old(activePaths.Valid()) && 0 <= x < activePaths.created && x !in old(activePaths.unused) ==>
              activePaths.Valid()
    {
      activePaths.Reclaim(x);
    }

    method GetTemporarySprite(force: bool) returns (r: Option<int>)
      requires Valid()
      modifies temporarySprites
      ensures (r, temporarySprites.unused, temporarySprites.created)
           == Take(old(temporarySprites.unused), old(temporarySprites.created), old(temporarySprites.limit), force)
      ensures temporarySprites.limit == old(temporarySprites.limit)
      ensures old(temporarySprites.Valid()) ==> temporarySprites.Valid()
    {
      r := temporarySprites.Get(force);
    }

    method ReclaimSprite(x: int)
      requires Valid()
      modifies temporarySprites
      ensures temporarySprites.unused == old(temporarySprites.unused) + [x]
      ensures temporarySprites.created == old(temporarySprites.created)
      ensures temporarySprites.limit == old(temporarySprites.limit)
      ensures (old(temporarySprites.Valid()) && 0 <= x < temporarySprites.created
               && x !in old(temporarySprites.unused)) ==> temporarySprites.Valid()
    {
      temporarySprites.Reclaim(x);
    }
  }

  /** A series of operations on a pool: a take (forced or not) or the
      reclaim of an instance. */
  datatype PoolOp = TakeOp(force: bool) | ReclaimOp(x: int)

  /** The pool after the operations. */
  function RunPool(unused: seq<int>, created: int, limit: int, ops: seq<PoolOp>): (seq<int>, int)
  {
    if ops == [] then (unused, created)
    else
      var (u, c) := RunPool(unused, created, limit, ops[..|ops| - 1]);
      match ops[|ops| - 1]
      case TakeOp(force) => var t := Take(u, c, limit, force); (t.1, t.2)
      case ReclaimOp(x) => (u + [x], c)
  }

  /** Without forced takes, a pool that starts with no more instances than
      its limit never gets more, whatever is given back and in what order. */
  lemma {:induction false} RunPoolWithinLimit(unused: seq<int>, created: int, limit: int, ops: seq<PoolOp>)
    requires created <= limit
    requires forall i :: 0 <= i < |ops| ==> ops[i] != TakeOp(true)
    ensures created <= RunPool(unused, created, limit, ops).1 <= limit
  {
    if ops != [] {
      var prefix := ops[..|ops| - 1];
      assert forall i :: 0 <= i < |prefix| ==> prefix[i] == ops[i];
      RunPoolWithinLimit(unused, created, limit, prefix);
    }
  }
}
