/** One call of `parallel_map_with_limit`: spawn under a permit, run, join in any order.

    The scheduler is unconstrained: any waiting spawn may get a free permit, any running task may
    finish next and any finished task may be joined next. */
module ParallelMap {
  import opened Collections
  import opened Sorting

  const MAX_CONCURRENCY: nat := 256

  /** The permit count of `shared_semaphore`. */
  function Permits(concurrency: nat): (permits: nat)
    ensures 1 <= permits <= 256
    ensures 1 <= concurrency <= 256 ==> permits == concurrency
    ensures concurrency > 256 ==> permits == 256
  {
    if concurrency < 1 then 1
    else if concurrency > MAX_CONCURRENCY then MAX_CONCURRENCY
    else concurrency
  }

  /** Progress of one call over items `0..total`; `next` is the item whose permit the spawn loop
      waits for, and `joined` lists the items in the order `join_next` returned them. */
  datatype Pool = Pool(total: nat, next: nat, running: set<nat>, finished: set<nat>, joined: seq<nat>) {

    ghost predicate Valid() {
      && next <= total
      && running !! finished
      && Distinct(joined)
      && (forall k :: k in joined ==> k !in running && k !in finished)
      && (forall k :: k in running || k in finished || k in joined <==> 0 <= k < next)
      && (joined != [] ==> next == total)
    }

    /** `join_next` returns `None`: everything was spawned and nothing is left to join. */
    predicate Done() {
      next == total && running == {} && finished == {}
    }

    predicate CanSpawn() { next < total }

    predicate CanFinish(k: nat) { k in running }

    predicate CanJoin(k: nat) { next == total && k in finished }

    function Spawn(): Pool
      requires CanSpawn()
    {
      this.(next := next + 1, running := running + {next})
    }

    function Finish(k: nat): Pool
      requires CanFinish(k)
    {
      this.(running := running - {k}, finished := finished + {k})
    }

    function Join(k: nat): Pool
      requires CanJoin(k)
    {
      this.(finished := finished - {k}, joined := joined + [k])
    }

    /** Steps left: each item is spawned, finished and joined. */
    function Weight(): nat
      requires next <= total
    {
      3 * (total - next) + 2 * |running| + |finished|
    }

    lemma SpawnStep()
      requires Valid() && CanSpawn()
      ensures Spawn().Valid()
      ensures |Spawn().running| == |running| + 1
      ensures Spawn().Weight() == Weight() - 1
    {
    }

    lemma FinishStep(k: nat)
      requires Valid() && CanFinish(k)
      ensures Finish(k).Valid()
      ensures |Finish(k).running| == |running| - 1
      ensures Finish(k).Weight() == Weight() - 1
    {
    }

    lemma JoinStep(k: nat)
      requires Valid() && CanJoin(k)
      ensures Join(k).Valid()
      ensures Join(k).Weight() == Weight() - 1
    {
    }

    /** A completed call joined every item exactly once. */
    lemma DoneJoinsAll()
      requires Valid() && Done()
      ensures IsOrder(joined, total)
      ensures Weight() == 0
    {
    }
  }

  function NewPool(total: nat): (p: Pool)
    ensures p.Valid() && p.Weight() == 3 * total
  {
    Pool(total, 0, {}, {}, [])
  }

  /** `order` lists `0..n`, each index once: a completion order. */
  ghost predicate IsOrder(order: seq<nat>, n: nat) {
    Distinct(order) && forall k :: k in order <==> 0 <= k < n
  }

  function Upto(n: nat): (r: seq<nat>)
    ensures |r| == n && forall i :: 0 <= i < n ==> r[i] == i
  {
    seq(n, i requires 0 <= i < n => i)
  }

  /** The results of a call, in completion order; a task that panicked contributes an empty block. */
  function Collect<T(!new)>(order: seq<nat>, block: nat -> seq<T>): seq<T> {
    Flatten(Map(order, block))
  }

  lemma CollectAppend<T(!new)>(a: seq<nat>, b: seq<nat>, block: nat -> seq<T>)
    ensures Collect(a + b, block) == Collect(a, block) + Collect(b, block)
  {
    assert Map(a + b, block) == Map(a, block) + Map(b, block);
    FlattenAppend(Map(a, block), Map(b, block));
  }

  lemma CollectOne<T(!new)>(k: nat, block: nat -> seq<T>)
    ensures Collect([k], block) == block(k)
  {
    assert Map([k], block) == [block(k)];
    assert Flatten([block(k)]) == block(k) + Flatten([]);
  }

  ghost predicate KeyedBlocks<T(!new)>(n: nat, block: nat -> seq<T>, key: T -> int, rank: nat -> int) {
    && (forall k, x :: 0 <= k < n && x in block(k) ==> key(x) == rank(k))
    && (forall j, k :: 0 <= j < k < n ==> rank(j) < rank(k))
  }

  lemma {:induction false} CollectWithoutKey<T(!new)>(
      order: seq<nat>, n: nat, block: nat -> seq<T>, key: T -> int, rank: nat -> int, k: int)
    requires forall j :: j in order ==> j < n && rank(j) != k
    requires KeyedBlocks(n, block, key, rank)
    ensures WithKey(Collect(order, block), key, k) == []
  {
    if order != [] {
      hide Collect, WithKey;
      var j, rest := order[0], order[1..];
      assert order == [j] + rest && j in order;
      assert forall i :: i in rest ==> i in order;
      CollectWithoutKey(rest, n, block, key, rank, k);
      CollectAppend([j], rest, block);
      CollectOne(j, block);
      WithKeyAppend(block(j), Collect(rest, block), key, k);
      WithKeyUniform(block(j), key, k, rank(j));
    }
  }

  /** Inside one key, a collection holds exactly that key's block. */
  lemma {:induction false} CollectWithKey<T(!new)>(
      order: seq<nat>, n: nat, block: nat -> seq<T>, key: T -> int, rank: nat -> int, own: nat)
    requires Distinct(order) && own in order && forall j :: j in order ==> j < n
    requires KeyedBlocks(n, block, key, rank)
    ensures WithKey(Collect(order, block), key, rank(own)) == block(own)
  {
    hide Collect, WithKey;
    var j, rest := order[0], order[1..];
    assert order == [j] + rest && j in order;
    assert forall i :: i in rest ==> i in order && i != j;
    CollectAppend([j], rest, block);
    CollectOne(j, block);
    WithKeyAppend(block(j), Collect(rest, block), key, rank(own));
    WithKeyUniform(block(j), key, rank(own), rank(j));
    if j == own {
      assert forall i :: i in rest ==> rank(i) != rank(own);
      CollectWithoutKey(rest, n, block, key, rank, rank(own));
    } else {
      CollectWithKey(rest, n, block, key, rank, own);
    }
  }

  lemma {:induction false} CollectUptoSorted<T(!new)>(
      n: nat, total: nat, block: nat -> seq<T>, key: T -> int, rank: nat -> int)
    requires n <= total && KeyedBlocks(total, block, key, rank)
    ensures SortedByKey(Collect(Upto(n), block), key)
    ensures forall x :: x in Collect(Upto(n), block) ==> n > 0 && key(x) <= rank(n - 1)
  {
    if n > 0 {
      hide Collect;
      var a, b := Collect(Upto(n - 1), block), block(n - 1);
      CollectUptoSorted(n - 1, total, block, key, rank);
      assert Upto(n) == Upto(n - 1) + [n - 1];
      CollectAppend(Upto(n - 1), [n - 1], block);
      CollectOne(n - 1, block);
      assert forall x :: x in b ==> key(x) == rank(n - 1);
      assert forall x :: x in a ==> key(x) <= rank(n - 1);
      SortedAppend(a, b, key, rank(n - 1));
    }
  }

  lemma SortedAppend<T(!new)>(a: seq<T>, b: seq<T>, key: T -> int, limit: int)
    requires SortedByKey(a, key)
    requires (forall x :: x in a ==> key(x) <= limit) && (forall x :: x in b ==> key(x) == limit)
    ensures SortedByKey(a + b, key)
  {
  }

  /** Whatever order the items completed in, the stable sort by destination gives back input order:
      blocks in order of their keys, and each block in its own order. */
  lemma SortedCollectIsSequential<T(!new)>(
      order: seq<nat>, n: nat, block: nat -> seq<T>, key: T -> int, rank: nat -> int)
    requires IsOrder(order, n)
    requires KeyedBlocks(n, block, key, rank)
    ensures SortByKey(Collect(order, block), key) == Collect(Upto(n), block)
  {
    CollectUptoSorted(n, n, block, key, rank);
    forall k ensures WithKey(Collect(Upto(n), block), key, k) == WithKey(Collect(order, block), key, k) {
      if j: nat :| j < n && rank(j) == k {
        assert j in order && Upto(n)[j] == j;
        CollectWithKey(order, n, block, key, rank, j);
        CollectWithKey(Upto(n), n, block, key, rank, j);
      } else {
        CollectWithoutKey(order, n, block, key, rank, k);
        CollectWithoutKey(Upto(n), n, block, key, rank, k);
      }
    }
    SortByKeyIs(Collect(order, block), key, Collect(Upto(n), block));
  }

  function Block<I, T>(items: seq<I>, f: I -> Option<T>): nat -> seq<T> {
    (k: nat) =>
      if k < |items| then
        match f(items[k])
        case Some(v) => [v]
        case None => []
      else []
  }

  lemma JoinCollects<T(!new)>(pool: Pool, k: nat, block: nat -> seq<T>)
    requires pool.CanJoin(k)
    ensures Collect(pool.Join(k).joined, block) == Collect(pool.joined, block) + block(k)
  {
    CollectAppend(pool.joined, [k], block);
    CollectOne(k, block);
  }

  /** Calling `f` on one item after the other. */
  function OneByOne<I(!new), T(!new)>(items: seq<I>, f: I -> Option<T>): seq<T> {
    if items == [] then []
    else
      match f(items[0])
      case Some(v) => [v] + OneByOne(items[1..], f)
      case None => OneByOne(items[1..], f)
  }

  // ----- the call on whole lists -----

  lemma {:induction false} CollectIsOneByOne<I(!new), T(!new)>(items: seq<I>, n: nat, f: I -> Option<T>)
    requires n <= |items|
    ensures Collect(Upto(n), Block(items, f)) == OneByOne(items[..n], f)
  {
    if n > 0 {
      CollectIsOneByOne(items, n - 1, f);
      assert Upto(n) == Upto(n - 1) + [n - 1];
      CollectAppend(Upto(n - 1), [n - 1], Block(items, f));
      CollectOne(n - 1, Block(items, f));
      assert items[..n] == items[..n - 1] + [items[n - 1]];
      OneByOneAppend(items[..n - 1], [items[n - 1]], f);
    }
  }

  lemma {:induction false} OneByOneAppend<I(!new), T(!new)>(a: seq<I>, b: seq<I>, f: I -> Option<T>)
    ensures OneByOne(a + b, f) == OneByOne(a, f) + OneByOne(b, f)
  {
    if a == [] {
      assert a + b == b;
    } else {
      assert (a + b)[1..] == a[1..] + b;
      OneByOneAppend(a[1..], b, f);
    }
  }

  /** A completion order changes the order of the results and nothing else. */
  lemma {:induction false} CollectUpToOrder<T(!new)>(a: seq<nat>, b: seq<nat>, block: nat -> seq<T>)
    requires multiset(a) == multiset(b)
    ensures multiset(Collect(a, block)) == multiset(Collect(b, block))
    decreases |a|
  {
    hide Collect;
    PermutationElements(a, b);
    if a == [] {
      assert b == [];
    } else {
      assert a[0] in b;
      var j :| 0 <= j < |b| && b[j] == a[0];
      CollectWithout(a, 0, block);
      CollectWithout(b, j, block);
      MultisetRemove(a, 0);
      MultisetRemove(b, j);
      MultisetCancel(multiset(a), multiset(Without(a, 0)), multiset(Without(b, j)), a[0]);
      CollectUpToOrder(Without(a, 0), Without(b, j), block);
    }
  }

  lemma CollectWithout<T(!new)>(s: seq<nat>, j: nat, block: nat -> seq<T>)
    requires j < |s|
    ensures multiset(Collect(s, block)) == multiset(Collect(Without(s, j), block)) + multiset(block(s[j]))
  {
    hide Collect;
    assert s == s[..j] + ([s[j]] + s[j + 1..]);
    CollectAppend(s[..j], [s[j]] + s[j + 1..], block);
    CollectAppend([s[j]], s[j + 1..], block);
    CollectAppend(s[..j], s[j + 1..], block);
    CollectOne(s[j], block);
  }

  lemma ParallelMapUpToOrder<I(!new), T(!new)>(items: seq<I>, f: I -> Option<T>, order: seq<nat>)
    requires IsOrder(order, |items|)
    ensures multiset(Collect(order, Block(items, f))) == multiset(OneByOne(items, f))
  {
    hide Collect;
    var n := |items|;
    forall k | k in order ensures k in Upto(n) {
      assert Upto(n)[k] == k;
    }
    DistinctSameElements(order, Upto(n));
    CollectUpToOrder(order, Upto(n), Block(items, f));
    CollectIsOneByOne(items, n, f);
    assert items[..n] == items;
  }

  /** The call itself, under an arbitrary scheduler. A task that panics (`f` gives `None`) is dropped
      from the result and still returns its permit. The three guards of the loop always leave one
      enabled, so the call cannot block while it holds the only permits. */
  method ParallelMapWithLimit<I(!new), T(!new)>(items: seq<I>, permits: nat, f: I -> Option<T>)
    returns (out: seq<T>, ghost order: seq<nat>)
    requires permits >= 1
    ensures IsOrder(order, |items|)
    ensures out == Collect(order, Block(items, f))
    ensures multiset(out) == multiset(OneByOne(items, f))
  {
    hide OneByOne;
    var pool := NewPool(|items|);
    var free := permits;
    out := [];
    while !pool.Done()
      invariant pool.Valid() && pool.total == |items|
      invariant free + |pool.running| == permits
      invariant out == Collect(pool.joined, Block(items, f))
      decreases pool.Weight()
    {
      if
      case pool.CanSpawn() && free > 0 =>
        pool.SpawnStep();
        pool, free := pool.Spawn(), free - 1;
      case pool.running != {} =>
        var k :| k in pool.running;
        pool.FinishStep(k);
        pool, free := pool.Finish(k), free + 1;
      case !pool.CanSpawn() && pool.finished != {} =>
        var k :| k in pool.finished;
        pool.JoinStep(k);
        JoinCollects(pool, k, Block(items, f));
        out := out + Block(items, f)(k);
        pool := pool.Join(k);
    }
    pool.DoneJoinsAll();
    order := pool.joined;
    ParallelMapUpToOrder(items, f, order);
  }
}
