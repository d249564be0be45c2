// Calls on the config store and its caches, access by access but with nobody in between: they end as the whole
// calls of `ConfigStore` do.
module ConfigSolo {
  import opened Wrappers
  import opened Json
  import opened ConfigStore
  import opened ConfigSteps
  import opened ConfigStale

  /** `t` goes on with the call it is in until it is idle, and nobody else does anything. */
  ghost predicate Finishes(w: World, t: Thread, run: seq<Action>) {
    EnabledRun(w, run) && (forall a :: a in run ==> a.Continue? && a.t == t) && At(After(w, run), t).Idle?
  }

  lemma Turn(w: World, t: Thread, run: seq<Action>) returns (next: World, rest: seq<Action>, keys: seq<Key>)
    requires Finishes(w, t, run) && !At(w, t).Idle?
    ensures run != [] && rest == run[1..] && run[0] == Continue(t, keys)
    ensures Enabled(w, run[0]) && next == ContinueStep(w, t, keys)
    ensures Finishes(next, t, rest) && After(w, run) == After(next, rest)
  {
    assert run[0] in run;
    keys := run[0].keys;
    next, rest := Next(w, run[0]), run[1..];
  }

  lemma Ends(w: World, t: Thread, run: seq<Action>)
    requires Finishes(w, t, run) && At(w, t).Idle?
    ensures run == [] && After(w, run) == w
  {
  }

  // ---- Refreshes ----------------------------------------------------------

  function KeySet(keys: seq<Key>): set<Key> {
    set k | k in keys
  }

  function AfterDrops(goal: Goal, i: nat): Pc {
    if goal.Refresh? then Idle else Publish(goal.key, i + 1, goal.own)
  }

  lemma RestOfKeys(cache: map<Key, Json>, keys: seq<Key>)
    requires keys != [] && Distinct(keys) && forall k :: k in keys ==> k in cache
    ensures Distinct(keys[1..]) && forall k :: k in keys[1..] ==> k in cache - {keys[0]}
    ensures cache - {keys[0]} - KeySet(keys[1..]) == cache - KeySet(keys)
  {
    assert keys == [keys[0]] + keys[1..];
    assert KeySet(keys) == {keys[0]} + KeySet(keys[1..]);
  }

  /** The listed keys go one by one; none of the `del`s raises. */
  lemma {:induction false} DropsAll(w: World, t: Thread, run: seq<Action>) returns (next: World, rest: seq<Action>)
    requires Finishes(w, t, run) && At(w, t).Dropping? && At(w, t).i < |w.caches|
    requires Distinct(At(w, t).keys) && forall k :: k in At(w, t).keys ==> k in w.caches[At(w, t).i]
    ensures var pc := At(w, t);
            next == w.(caches := w.caches[pc.i := w.caches[pc.i] - KeySet(pc.keys)], pcs := w.pcs[t := AfterDrops(pc.goal, pc.i)])
    ensures |rest| < |run| && Finishes(next, t, rest) && After(w, run) == After(next, rest)
    decreases |At(w, t).keys|
  {
    var pc := At(w, t);
    var mid, more, _ := Turn(w, t, run);
    if pc.keys == [] {
      next, rest := mid, more;
      assert w.caches[pc.i] - KeySet([]) == w.caches[pc.i];
    } else {
      RestOfKeys(w.caches[pc.i], pc.keys);
      next, rest := DropsAll(mid, t, more);
      assert mid.pcs[t := AfterDrops(pc.goal, pc.i)] == w.pcs[t := AfterDrops(pc.goal, pc.i)];
    }
  }

  lemma ListedIsBust(cache: map<Key, Json>, namespace: string, keys: seq<Key>)
    requires IsListing(cache, namespace, keys)
    ensures cache - KeySet(keys) == Bust(cache, Some(namespace))
  {
  }

  /** A refresh alone does what `ConfigMaterializer.Refresh` does. */
  lemma SoloRefresh(w: World, t: Thread, i: nat, namespace: Option<string>, run: seq<Action>)
    requires At(w, t).Idle? && i < |w.caches| && Finishes(Next(w, CallRefresh(t, i, namespace)), t, run)
    ensures var end := After(Next(w, CallRefresh(t, i, namespace)), run);
            end.docs == w.docs && end.log == w.log && end.caches == w.caches[i := Bust(w.caches[i], namespace)]
  {
    var w1 := Next(w, CallRefresh(t, i, namespace));
    if namespace.None? {
      Ends(w1, t, run);
      assert Bust(w.caches[i], None) == map[];
    } else {
      var w2, rest, keys := Turn(w1, t, run);
      ListedIsBust(w.caches[i], namespace.value, keys);
      var w3, rest3 := DropsAll(w2, t, rest);
      Ends(w3, t, rest3);
    }
  }

  // ---- Writes -------------------------------------------------------------

  /** The caches once those from `from` on have lost the namespace. */
  function Swept(caches: seq<map<Key, Json>>, namespace: string, from: nat): seq<map<Key, Json>> {
    seq(|caches|, j requires 0 <= j < |caches| => if j < from then caches[j] else Bust(caches[j], Some(namespace)))
  }

  lemma SweptOne(caches: seq<map<Key, Json>>, namespace: string, from: nat)
    requires from < |caches|
    ensures Swept(caches[from := Bust(caches[from], Some(namespace))], namespace, from + 1) == Swept(caches, namespace, from)
  {
  }

  lemma SweptNone(caches: seq<map<Key, Json>>, namespace: string)
    ensures Swept(caches, namespace, |caches|) == caches
  {
  }

  /** A publication sweeps the caches it has yet to reach. */
  lemma {:induction false} Publishes(w: World, t: Thread, run: seq<Action>) returns (next: World, rest: seq<Action>)
    requires Finishes(w, t, run) && At(w, t).Publish? && At(w, t).next <= |w.caches|
    ensures var pc := At(w, t);
            next == w.(caches := Swept(w.caches, pc.key.0, pc.next),
                       pcs := w.pcs[t := if pc.own.Some? then PutOwn(pc.own.value.0, pc.key, pc.own.value.1) else Idle])
    ensures Finishes(next, t, rest) && After(w, run) == After(next, rest)
    decreases |w.caches| - At(w, t).next
  {
    var pc := At(w, t);
    var w1, rest1, keys := Turn(w, t, run);
    if pc.next == |w.caches| {
      next, rest := w1, rest1;
      SweptNone(w.caches, pc.key.0);
    } else {
      ListedIsBust(w.caches[pc.next], pc.key.0, keys);
      var w2, rest2 := DropsAll(w1, t, rest1);
      SweptOne(w.caches, pc.key.0, pc.next);
      assert w2.pcs == w.pcs[t := Publish(pc.key, pc.next + 1, pc.own)];
      next, rest := Publishes(w2, t, rest2);
      assert w2.pcs[t := At(next, t)] == w.pcs[t := At(next, t)];
    }
  }

  lemma SweptTwice(caches: seq<map<Key, Json>>, key: Key, i: nat, content: Json)
    requires i < |caches|
    ensures var swept := Swept(caches, key.0, 0);
            Swept(swept[i := swept[i][key := content]], key.0, 0) == swept
  {
    var swept := Swept(caches, key.0, 0);
    assert Bust(swept[i][key := content], Some(key.0)) == swept[i];
    assert forall j :: 0 <= j < |caches| ==> Bust(swept[j], Some(key.0)) == swept[j];
  }

  lemma {:induction false} PublishesOwn(w: World, t: Thread, run: seq<Action>)
    requires Finishes(w, t, run) && At(w, t).Publish? && At(w, t).next == 0
    requires At(w, t).own.Some? ==> At(w, t).own.value.0 < |w.caches|
    ensures var end := After(w, run);
            end.docs == w.docs && end.log == w.log && end.caches == Swept(w.caches, At(w, t).key.0, 0)
  {
    var pc := At(w, t);
    var w1, rest1 := Publishes(w, t, run);
    if pc.own.Some? {
      var w2, rest2, _ := Turn(w1, t, rest1);
      SweptTwice(w.caches, pc.key, pc.own.value.0, pc.own.value.1);
      var w3, rest3 := Publishes(w2, t, rest2);
      Ends(w3, t, rest3);
    } else {
      Ends(w1, t, rest1);
    }
  }

  /** A write alone, through a materializer or not, does what the store alone does, and empties the namespace in
      every cache if it succeeds. */
  lemma SoloWrite(w: World, t: Thread, key: Key, content: Json, expected: Option<int>, through: Option<nat>, run: seq<Action>)
    requires At(w, t).Idle? && (through.Some? ==> through.value < |w.caches|)
    requires Finishes(Next(w, CallWrite(t, key, content, expected, through)), t, run)
    ensures var end := After(Next(w, CallWrite(t, key, content, expected, through)), run);
            var (docs, row) := Upserted(w.docs, key, content, expected);
            && end.docs == docs
            && end.caches == (if row.Ok? then Swept(w.caches, key.0, 0) else w.caches)
            && end.log == w.log + if row.Ok? then [Success(RowOf(w.docs, key), row.value)] else []
  {
    var w1 := Next(w, CallWrite(t, key, content, expected, through));
    if Upserted(w.docs, key, content, expected).1.Err? {
      Ends(w1, t, run);
    } else {
      var w2, rest, _ := Turn(w1, t, run);
      PublishesOwn(w2, t, rest);
    }
  }

  // ---- Reads --------------------------------------------------------------

  /** The answer that the steps of the run give last. */
  ghost function Answered(w: World, run: seq<Action>): Option<(Key, nat, Json)>
    requires EnabledRun(w, run)
    decreases |run|
  {
    if run == [] then None
    else
      var later := Answered(Next(w, run[0]), run[1..]);
      if later.Some? then later else Answer(w, run[0])
  }

  /** What a whole read finds: the cached content, else the stored one. */
  function Found(w: World, i: nat, key: Key): Option<Json>
    requires i < |w.caches|
  {
    if key in w.caches[i] then Some(w.caches[i][key]) else if key in w.docs then Some(w.docs[key].content) else None
  }

  lemma HitReads(w: World, t: Thread, run: seq<Action>)
    requires At(w, t).ReadHit? && At(w, t).i < |w.caches| && At(w, t).key in w.caches[At(w, t).i] && Finishes(w, t, run)
    ensures var pc := At(w, t);
            && After(w, run).docs == w.docs && After(w, run).log == w.log && After(w, run).caches == w.caches
            && Answered(w, run) == Some((pc.key, pc.since, w.caches[pc.i][pc.key]))
  {
    var end, rest, _ := Turn(w, t, run);
    Ends(end, t, rest);
  }

  lemma PutReads(w: World, t: Thread, run: seq<Action>)
    requires At(w, t).PutRead? && At(w, t).i < |w.caches| && Finishes(w, t, run)
    ensures var pc := At(w, t);
            && After(w, run).docs == w.docs && After(w, run).log == w.log
            && After(w, run).caches == w.caches[pc.i := w.caches[pc.i][pc.key := pc.content]]
            && Answered(w, run) == Some((pc.key, pc.since, pc.content))
  {
    var end, rest, _ := Turn(w, t, run);
    Ends(end, t, rest);
  }

  lemma MissReads(w: World, t: Thread, run: seq<Action>)
    requires At(w, t).LoadRow? && At(w, t).i < |w.caches| && At(w, t).key !in w.caches[At(w, t).i] && Finishes(w, t, run)
    ensures var pc := At(w, t);
            var found := Found(w, pc.i, pc.key);
            && After(w, run).docs == w.docs && After(w, run).log == w.log
            && After(w, run).caches ==
               (if found.Some? then w.caches[pc.i := w.caches[pc.i][pc.key := found.value]] else w.caches)
            && Answered(w, run) == if found.Some? then Some((pc.key, pc.since, found.value)) else None
  {
    var mid, rest, _ := Turn(w, t, run);
    if At(w, t).key in w.docs {
      PutReads(mid, t, rest);
    } else {
      Ends(mid, t, rest);
    }
  }

  /** A read alone answers and caches what `ConfigMaterializer.GetContent` does. */
  lemma SoloRead(w: World, t: Thread, i: nat, key: Key, run: seq<Action>)
    requires At(w, t).Idle? && i < |w.caches| && Finishes(Next(w, CallRead(t, i, key)), t, run)
    ensures var w1, found := Next(w, CallRead(t, i, key)), Found(w, i, key);
            && After(w1, run).docs == w.docs && After(w1, run).log == w.log
            && After(w1, run).caches == (if found.Some? then w.caches[i := w.caches[i][key := found.value]] else w.caches)
            && Answered(w1, run) == if found.Some? then Some((key, |w.log|, found.value)) else None
  {
    var w1 := Next(w, CallRead(t, i, key));
    if key in w.caches[i] {
      HitReads(w1, t, run);
      assert w.caches[i][key := w.caches[i][key]] == w.caches[i];
    } else {
      MissReads(w1, t, run);
    }
  }

  // ---- What others can see in between -------------------------------------

  /** Between the two publications of a write-through another thread can find its content in the cache. */
  lemma OwnContentShows(key: Key, c: Json) returns (run: seq<Action>)
    requires c.Object?
    ensures EnabledRun(Start(1), run) && At(After(Start(1), run), 0) == Publish(key, 0, None)
    ensures At(After(Start(1), run), 1).ReadHit? && Enabled(After(Start(1), run), Continue(1, []))
    ensures Answer(After(Start(1), run), Continue(1, [])) == Some((key, 1, c))
  {
    var w := Start(1);
    run := [];
    assert RunsTo(Start(1), [], Start(1));
    run, w := Then(Start(1), run, w, CallWrite(0, key, c, None, Some(0)));
    run, w := Then(Start(1), run, w, Continue(0, []));
    run, w := Then(Start(1), run, w, Continue(0, []));
    run, w := Then(Start(1), run, w, Continue(0, []));
    run, w := Then(Start(1), run, w, Continue(0, []));
    run, w := Then(Start(1), run, w, Continue(0, []));
    run, w := Then(Start(1), run, w, CallRead(1, 0, key));
  }
}
