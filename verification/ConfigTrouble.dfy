// Runs from the start after which a cache of packages/config/materializer.py is stale with all threads idle,
// or a read raises for a document that exists.
module ConfigTrouble {
  import opened Wrappers
  import opened Json
  import opened ConfigStore
  import opened ConfigSteps
  import opened ConfigStale

  // ---- Undisturbed calls --------------------------------------------------

  /** A publication over empty caches runs to its end. */
  lemma PublishesQuietly(s: World, run: seq<Action>, w: World, t: Thread, key: Key, next: nat) returns (longer: seq<Action>)
    requires RunsTo(s, run, w) && At(w, t) == Publish(key, next, None) && next <= |w.caches|
    requires forall i :: next <= i < |w.caches| ==> w.caches[i] == map[]
    ensures RunsTo(s, longer, w.(pcs := w.pcs[t := Idle]))
    decreases |w.caches| - next
  {
    var end;
    longer, end := Then(s, run, w, Continue(t, []));
    if next < |w.caches| {
      longer, end := Then(s, longer, end, Continue(t, []));
      longer := PublishesQuietly(s, longer, end, t, key, next + 1);
      assert end.pcs[t := Idle] == w.pcs[t := Idle];
    }
  }

  /** A write over empty caches. */
  lemma Writes(s: World, run: seq<Action>, w: World, t: Thread, key: Key, content: Json)
    returns (longer: seq<Action>, end: World)
    requires RunsTo(s, run, w) && At(w, t).Idle? && content.Object?
    requires forall i :: 0 <= i < |w.caches| ==> w.caches[i] == map[]
    ensures RunsTo(s, longer, end)
    ensures var row := Row(key, if key in w.docs then w.docs[key].version + 1 else 1, content);
            end == World(w.docs[key := row], w.caches, w.pcs[t := Idle], w.log + [Success(RowOf(w.docs, key), row)])
  {
    longer, end := Then(s, run, w, CallWrite(t, key, content, None, None));
    longer, end := Then(s, longer, end, Continue(t, []));
    longer := PublishesQuietly(s, longer, end, t, key, 0);
    var pc := end.pcs[t];
    assert w.pcs[t := SetRow(RowOf(w.docs, key), end.docs[key], None)][t := pc][t := Idle] == w.pcs[t := Idle];
    end := end.(pcs := end.pcs[t := Idle]);
  }

  /** A reader misses and loads the row. */
  lemma Loads(s: World, run: seq<Action>, w: World, t: Thread, i: nat, key: Key) returns (longer: seq<Action>, end: World)
    requires RunsTo(s, run, w) && At(w, t).Idle? && key in w.docs && i < |w.caches| && key !in w.caches[i]
    ensures RunsTo(s, longer, end)
    ensures end == w.(pcs := w.pcs[t := PutRead(i, key, w.docs[key].content, |w.log|)])
  {
    longer, end := Then(s, run, w, CallRead(t, i, key));
    longer, end := Then(s, longer, end, Continue(t, []));
    assert w.pcs[t := LoadRow(i, key, |w.log|)][t := end.pcs[t]] == w.pcs[t := end.pcs[t]];
  }

  /** A reader misses, loads the row and caches it. */
  lemma Fills(s: World, run: seq<Action>, w: World, t: Thread, i: nat, key: Key) returns (longer: seq<Action>, end: World)
    requires RunsTo(s, run, w) && At(w, t).Idle? && key in w.docs && i < |w.caches| && key !in w.caches[i]
    ensures RunsTo(s, longer, end)
    ensures end == w.(caches := w.caches[i := w.caches[i][key := w.docs[key].content]], pcs := w.pcs[t := Idle])
  {
    longer, end := Loads(s, run, w, t, i, key);
    var pc := end.pcs[t];
    longer, end := Then(s, longer, end, Continue(t, []));
    assert w.pcs[t := pc][t := Idle] == w.pcs[t := Idle];
  }

  lemma Starts(n: nat)
    ensures RunsTo(Start(n), [], Start(n)) && |Start(n).caches| == n
    ensures forall i :: 0 <= i < n ==> Start(n).caches[i] == map[]
  {
  }

  // ---- Late readers -------------------------------------------------------

  /** A reader that has loaded the row, and caches it after a whole write has come and gone, leaves the cache
      stale with all threads idle. */
  lemma LateReaderSpoils(key: Key, c: Json, d: Json) returns (run: seq<Action>)
    requires c.Object? && d.Object? && c != d
    ensures EnabledRun(Start(1), run) && AtRest(After(Start(1), run)) && !AllCoherent(After(Start(1), run))
  {
    var w;
    Starts(1);
    run, w := Writes(Start(1), [], Start(1), 0, key, c);
    run, w := Loads(Start(1), run, w, 1, 0, key);
    run, w := Writes(Start(1), run, w, 0, key, d);
    run, w := Then(Start(1), run, w, Continue(1, []));
    assert key in w.caches[0] && w.caches[0][key] == c && w.docs[key].content == d;
    assert !CacheCoherent(w.caches[0], w.docs);
  }

  /** A read raises for a document that exists: the entry goes between the test and the read. */
  lemma HitCanRaise(key: Key, c: Json) returns (run: seq<Action>)
    requires c.Object?
    ensures EnabledRun(Start(1), run) && HitRaises(After(Start(1), run), Continue(1, [])) && key in After(Start(1), run).docs
    ensures Enabled(After(Start(1), run), Continue(1, []))
  {
    var w;
    Starts(1);
    run, w := Writes(Start(1), [], Start(1), 0, key, c);
    run, w := Fills(Start(1), run, w, 1, 0, key);
    run, w := Then(Start(1), run, w, CallRead(1, 0, key));
    run, w := Then(Start(1), run, w, CallRefresh(0, 0, None));
  }

  // ---- An abandoned publication -------------------------------------------

  /** Two caches hold the document. */
  lemma TwoFilled(key: Key, c: Json) returns (run: seq<Action>, w: World)
    requires c.Object?
    ensures RunsTo(Start(2), run, w)
    ensures w.docs == map[key := Row(key, 1, c)] && w.caches == [map[key := c], map[key := c]]
    ensures AtRest(w)
  {
    Starts(2);
    run, w := Writes(Start(2), [], Start(2), 0, key, c);
    run, w := Fills(Start(2), run, w, 2, 0, key);
    run, w := Fills(Start(2), run, w, 2, 1, key);
  }

  /** One thread stores a new row and lists the first cache; another clears that cache; the `del` of the
      first raises, and the second cache keeps the old content with all threads idle.  No reader is late. */
  lemma AbandonedCacheStaysStale(key: Key, c: Json, d: Json) returns (run: seq<Action>)
    requires c.Object? && d.Object? && c != d
    ensures EnabledRun(Start(2), run) && AtRest(After(Start(2), run)) && !AllCoherent(After(Start(2), run))
  {
    var w;
    run, w := TwoFilled(key, c);
    run, w := Then(Start(2), run, w, CallWrite(0, key, d, None, None));
    run, w := Then(Start(2), run, w, Continue(0, []));
    run, w := Then(Start(2), run, w, Continue(0, [key]));
    run, w := Then(Start(2), run, w, CallRefresh(1, 0, None));
    run, w := Then(Start(2), run, w, Continue(0, []));
    assert key in w.caches[1] && w.caches[1][key] == c && w.docs[key].content == d;
    assert !CacheCoherent(w.caches[1], w.docs);
  }
}
