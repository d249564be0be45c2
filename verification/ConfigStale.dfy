// When the caches of packages/config/materializer.py are stale for good, with refreshes that list a cache
// and then delete one key at a time.
module ConfigStale {
  import opened Wrappers
  import opened Json
  import opened ConfigStore
  import opened ConfigSteps

  // ---- What is still going to be dropped ----------------------------------

  /** The thread is going to drop entry `k` of cache `i`, unless a `del` of its raises first: it is about to
      store a row of the namespace and publish it, or its publication or refresh has yet to get there. */
  predicate Covers(pc: Pc, i: nat, k: Key) {
    match pc
    case SetRow(_, row, _) => row.key.0 == k.0
    case Publish(key, next, own) => key.0 == k.0 && (next <= i || own.Some?)
    case ListKeys(j, namespace) => j == i && namespace == k.0
    case Dropping(j, keys, goal) =>
      || (j == i && k in keys)
      || (goal.Publication? && goal.key.0 == k.0 && (j < i || goal.own.Some?))
    case PutOwn(_, key, _) => key.0 == k.0
    case _ => false
  }

  ghost predicate Covered(pcs: map<Thread, Pc>, i: nat, k: Key) {
    exists t :: t in pcs && Covers(pcs[t], i, k)
  }

  ghost predicate CoveredByOther(pcs: map<Thread, Pc>, t: Thread, i: nat, k: Key) {
    exists u :: u in pcs && u != t && Covers(pcs[u], i, k)
  }

  /** Every cached entry is the stored content, or some thread is going to drop it. */
  ghost predicate CachesSettle(w: World) {
    forall i, k :: 0 <= i < |w.caches| && k in w.caches[i] ==>
                     Agrees(w.docs, k, w.caches[i][k]) || Covered(w.pcs, i, k)
  }

  /** The step caches content that was read before the document changed, and nobody is going to drop it. */
  ghost predicate PutsStale(w: World, a: Action) {
    && a.Continue? && At(w, a.t).PutRead?
    && !Agrees(w.docs, At(w, a.t).key, At(w, a.t).content)
    && !CoveredByOther(w.pcs, a.t, At(w, a.t).i, At(w, a.t).key)
  }

  /** The step is a `del` that raises, and some cache holds a stale entry that nobody else is going to drop. */
  ghost predicate Abandons(w: World, a: Action) {
    && Raises(w, a)
    && exists i, k :: 0 <= i < |w.caches| && k in w.caches[i] && !Agrees(w.docs, k, w.caches[i][k]) &&
                      !CoveredByOther(w.pcs, a.t, i, k)
  }

  ghost predicate Spoils(w: World, a: Action) {
    PutsStale(w, a) || Abandons(w, a)
  }

  ghost predicate NothingSpoiled(w: World, run: seq<Action>)
    requires EnabledRun(w, run)
    decreases |run|
  {
    run == [] || (!Spoils(w, run[0]) && NothingSpoiled(Next(w, run[0]), run[1..]))
  }

  // ---- One step -----------------------------------------------------------

  /** One thread moves on, and covers what it covered before. */
  lemma CoverStays(pcs: map<Thread, Pc>, t: Thread, pc: Pc, i: nat, k: Key)
    requires Covered(pcs, i, k) && (t in pcs && Covers(pcs[t], i, k) ==> Covers(pc, i, k))
    ensures Covered(pcs[t := pc], i, k)
  {
    var u :| u in pcs && Covers(pcs[u], i, k);
    assert Covers(pcs[t := pc][u], i, k);
  }

  /** A step that stores nothing in a document or cache: it settles if its thread goes on covering every
      entry that is left. */
  lemma MovesOn(w: World, t: Thread, pc: Pc, caches: seq<map<Key, Json>>)
    requires CachesSettle(w) && |caches| == |w.caches|
    requires forall i, k :: 0 <= i < |caches| && k in caches[i] ==> k in w.caches[i] && caches[i][k] == w.caches[i][k]
    requires forall i, k :: 0 <= i < |caches| && k in caches[i] && Covers(At(w, t), i, k) ==> Covers(pc, i, k)
    ensures CachesSettle(World(w.docs, caches, w.pcs[t := pc], w.log))
  {
    forall i, k | 0 <= i < |caches| && k in caches[i]
      ensures Agrees(w.docs, k, caches[i][k]) || Covered(w.pcs[t := pc], i, k)
    {
      if !Agrees(w.docs, k, w.caches[i][k]) {
        CoverStays(w.pcs, t, pc, i, k);
      }
    }
  }

  /** The step caches nothing, stores no row, and no `del` of it raises. */
  predicate Quiet(w: World, a: Action) {
    && !Raises(w, a)
    && (a.Continue? ==> !At(w, a.t).SetRow? && !At(w, a.t).PutOwn? && !At(w, a.t).PutRead?)
  }

  lemma DropSettles(w: World, a: Action)
    requires CachesSettle(w) && Enabled(w, a) && Quiet(w, a) && a.Continue? && At(w, a.t).Dropping?
    ensures CachesSettle(Next(w, a))
  {
    var next, pc := Next(w, a), At(w, a.t);
    if pc.keys != [] { assert pc.keys == [pc.keys[0]] + pc.keys[1..]; }
    MovesOn(w, a.t, next.pcs[a.t], next.caches);
  }

  lemma QuietSettles(w: World, a: Action)
    requires CachesSettle(w) && Enabled(w, a) && Quiet(w, a)
    ensures CachesSettle(Next(w, a))
  {
    var next := Next(w, a);
    if a.Continue? && At(w, a.t).Dropping? {
      DropSettles(w, a);
    } else if a.CallRefresh? && a.namespace.None? {
      assert forall i, k :: 0 <= i < |next.caches| && k in next.caches[i] ==>
                              k in w.caches[i] && next.caches[i][k] == w.caches[i][k];
    } else if next != w {
      MovesOn(w, a.t, next.pcs[a.t], next.caches);
    }
  }

  lemma SetSettles(w: World, a: Action)
    requires CachesSettle(w) && Enabled(w, a) && a.Continue? && At(w, a.t).SetRow?
    ensures CachesSettle(Next(w, a))
  {
    var next := Next(w, a);
    forall i, k | 0 <= i < |next.caches| && k in next.caches[i]
      ensures Agrees(next.docs, k, next.caches[i][k]) || Covered(next.pcs, i, k)
    {
      if k == At(w, a.t).row.key {
        assert Covers(next.pcs[a.t], i, k);
      } else if !Agrees(w.docs, k, w.caches[i][k]) {
        CoverStays(w.pcs, a.t, next.pcs[a.t], i, k);
      }
    }
  }

  lemma PutOwnSettles(w: World, a: Action)
    requires CachesSettle(w) && Enabled(w, a) && a.Continue? && At(w, a.t).PutOwn?
    ensures CachesSettle(Next(w, a))
  {
    var next, key := Next(w, a), At(w, a.t).key;
    forall i, k | 0 <= i < |next.caches| && k in next.caches[i]
      ensures Agrees(next.docs, k, next.caches[i][k]) || Covered(next.pcs, i, k)
    {
      if k == key {
        assert Covers(next.pcs[a.t], i, k);
      } else if !Agrees(w.docs, k, w.caches[i][k]) {
        CoverStays(w.pcs, a.t, next.pcs[a.t], i, k);
      }
    }
  }

  /** Once a thread is idle, an entry is covered if another thread covers it. */
  lemma CoveredByOthers(pcs: map<Thread, Pc>, t: Thread, i: nat, k: Key)
    ensures Covered(pcs[t := Idle], i, k) <==> CoveredByOther(pcs, t, i, k)
  {
    var next := pcs[t := Idle];
    if Covered(next, i, k) {
      var u :| u in next && Covers(next[u], i, k);
      assert u != t && Covers(pcs[u], i, k);
    }
    if CoveredByOther(pcs, t, i, k) {
      var u :| u in pcs && u != t && Covers(pcs[u], i, k);
      assert Covers(next[u], i, k);
    }
  }

  lemma PutReadSettlesIff(w: World, a: Action)
    requires CachesSettle(w) && Enabled(w, a) && a.Continue? && At(w, a.t).PutRead?
    ensures CachesSettle(Next(w, a)) <==> !PutsStale(w, a)
  {
    var next, pc := Next(w, a), At(w, a.t);
    CoveredByOthers(w.pcs, a.t, pc.i, pc.key);
    assert pc.key in next.caches[pc.i] && next.caches[pc.i][pc.key] == pc.content;
    if !PutsStale(w, a) {
      forall i, k | 0 <= i < |next.caches| && k in next.caches[i]
        ensures Agrees(next.docs, k, next.caches[i][k]) || Covered(next.pcs, i, k)
      {
        if (i != pc.i || k != pc.key) && !Agrees(w.docs, k, w.caches[i][k]) {
          CoverStays(w.pcs, a.t, Idle, i, k);
        }
      }
    }
  }

  lemma RaiseSettlesIff(w: World, a: Action)
    requires CachesSettle(w) && Enabled(w, a) && Raises(w, a)
    ensures CachesSettle(Next(w, a)) <==> !Abandons(w, a)
  {
    forall i, k
      ensures Covered(Next(w, a).pcs, i, k) <==> CoveredByOther(w.pcs, a.t, i, k)
    {
      CoveredByOthers(w.pcs, a.t, i, k);
    }
  }

  /** A step unsettles the caches exactly when it caches content read before the document changed that
      nobody is going to drop, or is a `del` that raises and so abandons a stale entry that nobody else is
      going to drop. */
  lemma StepSettlesIff(w: World, a: Action)
    requires CachesSettle(w) && Enabled(w, a)
    ensures CachesSettle(Next(w, a)) <==> !Spoils(w, a)
  {
    if Raises(w, a) {
      RaiseSettlesIff(w, a);
    } else if a.Continue? && At(w, a.t).SetRow? {
      SetSettles(w, a);
    } else if a.Continue? && At(w, a.t).PutOwn? {
      PutOwnSettles(w, a);
    } else if a.Continue? && At(w, a.t).PutRead? {
      PutReadSettlesIff(w, a);
    } else {
      QuietSettles(w, a);
    }
  }

  // ---- Runs ---------------------------------------------------------------

  lemma {:induction false} RunSettles(w: World, run: seq<Action>)
    requires CachesSettle(w) && EnabledRun(w, run) && NothingSpoiled(w, run)
    ensures CachesSettle(After(w, run))
    decreases |run|
  {
    if run != [] {
      StepSettlesIff(w, run[0]);
      RunSettles(Next(w, run[0]), run[1..]);
    }
  }

  ghost predicate AtRest(w: World) {
    forall t :: t in w.pcs ==> w.pcs[t].Idle?
  }

  ghost predicate AllCoherent(w: World) {
    forall i :: 0 <= i < |w.caches| ==> CacheCoherent(w.caches[i], w.docs)
  }

  /** With all threads idle, settled means coherent. */
  lemma RestIsCoherent(w: World)
    requires AtRest(w)
    ensures CachesSettle(w) <==> AllCoherent(w)
  {
    forall i, k
      ensures !Covered(w.pcs, i, k)
    {
    }
    if CachesSettle(w) {
      forall i | 0 <= i < |w.caches|
        ensures CacheCoherent(w.caches[i], w.docs)
      {
        assert forall k :: k in w.caches[i] ==> Agrees(w.docs, k, w.caches[i][k]);
      }
    }
    if AllCoherent(w) {
      forall i, k | 0 <= i < |w.caches| && k in w.caches[i]
        ensures Agrees(w.docs, k, w.caches[i][k])
      {
        assert CacheCoherent(w.caches[i], w.docs);
      }
    }
  }

  /** Whenever all threads are idle again, every cache agrees with the store, unless some step spoiled one. */
  lemma CachesAgreeAtRest(n: nat, run: seq<Action>)
    requires EnabledRun(Start(n), run) && NothingSpoiled(Start(n), run) && AtRest(After(Start(n), run))
    ensures AllCoherent(After(Start(n), run))
  {
    RunSettles(Start(n), run);
    RestIsCoherent(After(Start(n), run));
  }

  /** A step that is the last one to spoil a cache shows: if it ends with all threads idle, some cache
      differs from the store. */
  lemma SpoilingShowsAtRest(n: nat, run: seq<Action>, a: Action)
    requires EnabledRun(Start(n), run) && NothingSpoiled(Start(n), run)
    requires Enabled(After(Start(n), run), a) && AtRest(Next(After(Start(n), run), a))
    ensures AllCoherent(Next(After(Start(n), run), a)) <==> !Spoils(After(Start(n), run), a)
  {
    RunSettles(Start(n), run);
    StepSettlesIff(After(Start(n), run), a);
    RestIsCoherent(Next(After(Start(n), run), a));
  }

  // ---- When a `del` raises ------------------------------------------------

  /** The thread has listed key `k` of cache `i` and not dropped it yet. */
  predicate Lists(w: World, t: Thread, i: nat, k: Key) {
    At(w, t).Dropping? && At(w, t).i == i && k in At(w, t).keys
  }

  /** The next access of the thread is the `del` of key `k` of cache `i`. */
  predicate DropsNext(w: World, t: Thread, i: nat, k: Key) {
    Lists(w, t, i, k) && i < |w.caches| && At(w, t).keys[0] == k
  }

  ghost predicate KeepsListed(w: World, run: seq<Action>, t: Thread, i: nat, k: Key)
    requires EnabledRun(w, run)
    decreases |run|
  {
    Lists(w, t, i, k) && (run == [] || KeepsListed(Next(w, run[0]), run[1..], t, i, k))
  }

  predicate Distinct(keys: seq<Key>) {
    forall a, b :: 0 <= a < b < |keys| ==> keys[a] != keys[b]
  }

  predicate Has(w: World, i: nat, k: Key) {
    i < |w.caches| && k in w.caches[i]
  }

  /** The key is in the cache at no point of the run. */
  ghost predicate NeverThere(w: World, run: seq<Action>, i: nat, k: Key)
    requires EnabledRun(w, run)
    decreases |run|
  {
    !Has(w, i, k) && (run == [] || NeverThere(Next(w, run[0]), run[1..], i, k))
  }

  /** Some step of another thread takes the key out of the cache, and it is not put back. */
  ghost predicate TakenByOther(w: World, run: seq<Action>, t: Thread, i: nat, k: Key)
    requires EnabledRun(w, run)
    decreases |run|
  {
    run != [] &&
    (|| TakenByOther(Next(w, run[0]), run[1..], t, i, k)
     || (run[0].t != t && Has(w, i, k) && NeverThere(Next(w, run[0]), run[1..], i, k)))
  }

  lemma StepKeepsListing(w: World, a: Action, t: Thread, i: nat, k: Key)
    requires Enabled(w, a) && Lists(w, t, i, k) && Distinct(At(w, t).keys) && Lists(Next(w, a), t, i, k)
    ensures Distinct(At(Next(w, a), t).keys)
    ensures Has(w, i, k) && !Has(Next(w, a), i, k) ==> a.t != t
  {
    if a.t != t {
      assert At(Next(w, a), t) == At(w, t);
    } else {
      var keys := At(w, t).keys;
      assert keys == [keys[0]] + keys[1..];
    }
  }

  lemma {:induction false} GoneIff(w: World, run: seq<Action>, t: Thread, i: nat, k: Key)
    requires EnabledRun(w, run) && KeepsListed(w, run, t, i, k) && Distinct(At(w, t).keys)
    ensures !Has(After(w, run), i, k) <==> TakenByOther(w, run, t, i, k) || NeverThere(w, run, i, k)
    decreases |run|
  {
    if run != [] {
      StepKeepsListing(w, run[0], t, i, k);
      GoneIff(Next(w, run[0]), run[1..], t, i, k);
      if run[1..] == [] { assert Lists(Next(w, run[0]), t, i, k); }
    }
  }

  /** What a listing leaves to be dropped: distinct keys that are in the cache. */
  lemma ListingStarts(w: World, a: Action)
    requires Enabled(w, a) && a.Continue? && !At(w, a.t).Dropping? && At(Next(w, a), a.t).Dropping?
    ensures var pc := At(Next(w, a), a.t);
            Distinct(pc.keys) && forall k :: k in pc.keys ==> Has(Next(w, a), pc.i, k)
  {
  }

  /** From the step `a` that lists a cache to the `del` of a listed key: the `del` raises exactly when another
      thread has taken the key out in between and nobody has put it back. */
  lemma RaisesIffTaken(w: World, a: Action, run: seq<Action>, i: nat, k: Key)
    requires Enabled(w, a) && a.Continue? && !At(w, a.t).Dropping?
    requires EnabledRun(Next(w, a), run) && KeepsListed(Next(w, a), run, a.t, i, k)
    requires DropsNext(After(Next(w, a), run), a.t, i, k)
    ensures Raises(After(Next(w, a), run), Continue(a.t, [])) <==> TakenByOther(Next(w, a), run, a.t, i, k)
  {
    ListingStarts(w, a);
    GoneIff(Next(w, a), run, a.t, i, k);
  }

  // ---- What a read answers ------------------------------------------------

  /** The key, the writes at the time of the call, and the content a read answers with in this step. */
  function Answer(w: World, a: Action): Option<(Key, nat, Json)>
    requires Enabled(w, a)
  {
    if !a.Continue? then None
    else
      match At(w, a.t)
      case ReadHit(i, key, since) => if key in w.caches[i] then Some((key, since, w.caches[i][key])) else None
      case PutRead(i, key, content, since) => Some((key, since, content))
      case _ => None
  }

  /** A cache hit that raises: the entry went between the test and the read. */
  predicate HitRaises(w: World, a: Action) {
    && a.Continue? && At(w, a.t).ReadHit? && At(w, a.t).i < |w.caches|
    && At(w, a.t).key !in w.caches[At(w, a.t).i]
  }

  predicate Holds(log: seq<Success>, key: Key, content: Json) {
    LastRow(log, key).Some? && LastRow(log, key).value.content == content
  }

  /** The store held the content after some write since then. */
  ghost predicate HeldSince(log: seq<Success>, key: Key, since: nat, content: Json) {
    exists n :: since <= n <= |log| && Holds(log[..n], key, content)
  }

  predicate Started(log: seq<Success>, pc: Pc) {
    (pc.ReadHit? || pc.LoadRow? || pc.PutRead?) ==> pc.since <= |log|
  }

  ghost predicate ReadsSound(w: World) {
    && DocsFollowLog(w)
    && (forall t :: t in w.pcs ==> Started(w.log, w.pcs[t]))
    && (forall t :: t in w.pcs && w.pcs[t].PutRead? ==> HeldSince(w.log, w.pcs[t].key, w.pcs[t].since, w.pcs[t].content))
  }

  lemma HeldNow(w: World, key: Key, since: nat, content: Json)
    requires DocsFollowLog(w) && Agrees(w.docs, key, content) && since <= |w.log|
    ensures HeldSince(w.log, key, since, content)
  {
    assert w.log[..|w.log|] == w.log;
    assert RowOf(w.docs, key) == LastRow(w.log, key);
  }

  lemma HeldStays(log: seq<Success>, more: seq<Success>, key: Key, since: nat, content: Json)
    requires HeldSince(log, key, since, content) && log <= more
    ensures HeldSince(more, key, since, content)
  {
    var n :| since <= n <= |log| && Holds(log[..n], key, content);
    assert more[..n] == log[..n];
  }

  lemma StepKeepsReadsSound(w: World, a: Action)
    requires ReadsSound(w) && Enabled(w, a)
    ensures ReadsSound(Next(w, a))
  {
    var next := Next(w, a);
    StepChains(w, a);
    forall t | t in next.pcs && next.pcs[t].PutRead?
      ensures HeldSince(next.log, next.pcs[t].key, next.pcs[t].since, next.pcs[t].content)
    {
      if t in w.pcs && w.pcs[t] == next.pcs[t] {
        HeldStays(w.log, next.log, next.pcs[t].key, next.pcs[t].since, next.pcs[t].content);
      } else {
        HeldNow(w, next.pcs[t].key, next.pcs[t].since, next.pcs[t].content);
      }
    }
  }

  lemma {:induction false} RunKeepsReadsSound(w: World, run: seq<Action>)
    requires ReadsSound(w) && EnabledRun(w, run)
    ensures ReadsSound(After(w, run))
    decreases |run|
  {
    if run != [] {
      StepKeepsReadsSound(w, run[0]);
      RunKeepsReadsSound(Next(w, run[0]), run[1..]);
    }
  }

  /** Every answer is a content the store held at some point since the read was called.  A hit may also
      answer with an older one, but while no cache is spoiled only from an entry that is about to be dropped. */
  lemma AnswersHeld(n: nat, run: seq<Action>, a: Action)
    requires EnabledRun(Start(n), run) && Enabled(After(Start(n), run), a) && Answer(After(Start(n), run), a).Some?
    ensures var w := After(Start(n), run);
            var (key, since, content) := Answer(w, a).value;
            && (At(w, a.t).PutRead? ==> HeldSince(w.log, key, since, content))
            && (NothingSpoiled(Start(n), run) && At(w, a.t).ReadHit? ==>
                  HeldSince(w.log, key, since, content) || Covered(w.pcs, At(w, a.t).i, key))
  {
    var w := After(Start(n), run);
    var (key, since, content) := Answer(w, a).value;
    RunKeepsReadsSound(Start(n), run);
    if NothingSpoiled(Start(n), run) && At(w, a.t).ReadHit? {
      RunSettles(Start(n), run);
      if Agrees(w.docs, key, content) {
        HeldNow(w, key, since, content);
      }
    }
  }
}
