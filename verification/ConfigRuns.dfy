// Whole runs of the config store: the caches are invisible, and no write is lost.
module ConfigRuns {
  import opened Wrappers
  import opened Json
  import opened ConfigStore

  // ---- Coherence ----------------------------------------------------------

  /** A call on the store, or on one of the materializers, by number. */
  datatype Op =
    | Write(key: Key, content: Json, expected: Option<int>)
    | WriteThrough(i: nat, key: Key, content: Json, expected: Option<int>)
    | Read(i: nat, key: Key)
    | Refresh(i: nat, namespace: Option<string>)

  datatype Output = Wrote(version: Result<int, ConfigError>) | Got(content: Result<Json, ConfigError>) | Done

  /** The same call on a store without caches. */
  function Direct(docs: Docs, op: Op): (Docs, Output) {
    match op
    case Read(_, key) =>
      (docs, Got(if key in docs then Ok(docs[key].content) else Err(MissingDocument(key))))
    case Refresh(_, _) => (docs, Done)
    case _ =>
      var (next, row) := Upserted(docs, op.key, op.content, op.expected);
      (next, Wrote(if row.Ok? then Ok(row.value.version) else Err(row.error)))
  }

  function DirectRun(docs: Docs, ops: seq<Op>): (Docs, seq<Output>) {
    if ops == [] then (docs, [])
    else
      var (before, outs) := DirectRun(docs, ops[..|ops| - 1]);
      var (after, out) := Direct(before, ops[|ops| - 1]);
      (after, outs + [out])
  }

  /** The materializers are registered, share the store, and every cache agrees with it. */
  ghost predicate Coherent(store: InMemoryConfigStore, hub: ConfigNotifyHub, ms: seq<ConfigMaterializer>)
    reads store, hub, hub.materializers
  {
    && hub.Valid()
    && (forall m :: m in ms ==> m in hub.materializers)
    && (forall m :: m in hub.materializers ==> m.store == store && CacheCoherent(m.cache, store.docs))
  }

  lemma WrittenCoherent(cache: map<Key, Json>, docs: Docs, key: Key, content: Json, expected: Option<int>)
    requires CacheCoherent(cache, docs)
    ensures var (next, row) := Upserted(docs, key, content, expected);
            CacheCoherent(if row.Ok? then Bust(cache, Some(key.0)) else cache, next)
  {
  }

  /** One call with notification on: the same answer as without caches, and still coherent. */
  method Perform(store: InMemoryConfigStore, hub: ConfigNotifyHub, ms: seq<ConfigMaterializer>, op: Op) returns (out: Output)
    requires Coherent(store, hub, ms) && (!op.Write? ==> op.i < |ms|)
    modifies store, hub, hub.materializers
    ensures hub.materializers == old(hub.materializers)
    ensures (store.docs, out) == Direct(old(store.docs), op)
    ensures Coherent(store, hub, ms)
  {
    if !op.Write? {
      assert ms[op.i] in ms && ms[op.i] in hub.materializers;
    }
    match op
    case Write(key, content, expected) =>
      forall m | m in hub.materializers {
        WrittenCoherent(m.cache, store.docs, key, content, expected);
      }
      var row := store.Upsert(hub, true, key, content, expected);
      out := Wrote(if row.Ok? then Ok(row.value.version) else Err(row.error));
    case WriteThrough(i, key, content, expected) =>
      forall m | m in hub.materializers {
        WrittenCoherent(m.cache, store.docs, key, content, expected);
      }
      var version := ms[i].UpsertContent(hub, true, key, content, expected);
      out := Wrote(version);
    case Read(i, key) =>
      var content := ms[i].GetContent(key);
      out := Got(content);
    case Refresh(i, namespace) =>
      ms[i].Refresh(namespace);
      out := Done;
  }

  /** Any run, from any coherent state, answers as the store alone would: every read returns the last
      successful write, whichever materializer made it and whatever any of them had cached. */
  method PerformAll(store: InMemoryConfigStore, hub: ConfigNotifyHub, ms: seq<ConfigMaterializer>, ops: seq<Op>)
    returns (outs: seq<Output>)
    requires Coherent(store, hub, ms) && forall op :: op in ops && !op.Write? ==> op.i < |ms|
    modifies store, hub, hub.materializers
    ensures (store.docs, outs) == DirectRun(old(store.docs), ops)
    ensures Coherent(store, hub, ms)
  {
    outs := [];
    for n := 0 to |ops|
      invariant hub.materializers == old(hub.materializers)
      invariant Coherent(store, hub, ms)
      invariant (store.docs, outs) == DirectRun(old(store.docs), ops[..n])
    {
      assert ops[..n + 1][..n] == ops[..n];
      var out := Perform(store, hub, ms, ops[n]);
      outs := outs + [out];
    }
    assert ops[..|ops|] == ops;
  }

  // ---- Versions -----------------------------------------------------------

  predicate Writes(op: Op, out: Output, key: Key) {
    (op.Write? || op.WriteThrough?) && op.key == key && out.Wrote? && out.version.Ok?
  }

  /** Successful writes to a key, and the content of the last of them. */
  function Successes(ops: seq<Op>, outs: seq<Output>, key: Key): nat
    requires |ops| == |outs|
  {
    if ops == [] then 0
    else
      Successes(ops[..|ops| - 1], outs[..|outs| - 1], key) + if Writes(ops[|ops| - 1], outs[|outs| - 1], key) then 1 else 0
  }

  function LastWritten(ops: seq<Op>, outs: seq<Output>, key: Key): Option<Json>
    requires |ops| == |outs|
  {
    if ops == [] then None
    else if Writes(ops[|ops| - 1], outs[|outs| - 1], key) then Some(ops[|ops| - 1].content)
    else LastWritten(ops[..|ops| - 1], outs[..|outs| - 1], key)
  }

  /** Without deletes, a document holds the last successful write and its version counts them all; each
      successful write returns the count it reaches. */
  lemma {:induction false} VersionCountsWrites(ops: seq<Op>, key: Key)
    ensures var (docs, outs) := DirectRun(map[], ops);
            && |outs| == |ops|
            && (key in docs <==> Successes(ops, outs, key) > 0)
            && (key in docs ==> docs[key].version == Successes(ops, outs, key) && LastWritten(ops, outs, key) == Some(docs[key].content))
            && (ops != [] && Writes(ops[|ops| - 1], outs[|outs| - 1], key) ==>
                  outs[|outs| - 1].version == Ok(Successes(ops, outs, key)))
  {
    if ops != [] {
      VersionCountsWrites(ops[..|ops| - 1], key);
      var (before, outs) := DirectRun(map[], ops[..|ops| - 1]);
      var (after, out) := Direct(before, ops[|ops| - 1]);
      assert (outs + [out])[..|outs|] == outs;
    }
  }

  /** A read at the end of a run returns the last successful write, or fails if there was none. */
  lemma ReadReturnsLastWrite(ops: seq<Op>, i: nat, key: Key)
    ensures var outs := DirectRun(map[], ops).1;
            && |outs| == |ops|
            && DirectRun(map[], ops + [Read(i, key)]).1 ==
               outs + [Got(match LastWritten(ops, outs, key) case Some(c) => Ok(c) case None => Err(MissingDocument(key)))]
  {
    VersionCountsWrites(ops, key);
    NeverWritten(ops, DirectRun(map[], ops).1, key);
    assert (ops + [Read(i, key)])[..|ops|] == ops;
  }

  lemma {:induction false} NeverWritten(ops: seq<Op>, outs: seq<Output>, key: Key)
    requires |ops| == |outs|
    ensures LastWritten(ops, outs, key).None? <==> Successes(ops, outs, key) == 0
  {
    if ops != [] {
      NeverWritten(ops[..|ops| - 1], outs[..|outs| - 1], key);
    }
  }

  /** What one more write answers, told from the run before it: refused for content that is no mapping, then
      for an expected version that is not the number of successes (or any expected version before the first
      one), and otherwise accepted with the next number. */
  function Verdict(successes: nat, key: Key, content: Json, expected: Option<int>): Output {
    if !content.Object? then Wrote(Err(NotAMapping))
    else if expected == None || (successes > 0 && expected == Some(successes)) then Wrote(Ok(successes + 1))
    else Wrote(Err(VersionConflict(key, expected.value)))
  }

  function WriteOp(key: Key, content: Json, expected: Option<int>, through: Option<nat>): Op {
    if through.Some? then WriteThrough(through.value, key, content, expected) else Write(key, content, expected)
  }

  lemma RunSnoc(ops: seq<Op>, op: Op)
    ensures var (docs, outs) := DirectRun(map[], ops);
            DirectRun(map[], ops + [op]) == (Direct(docs, op).0, outs + [Direct(docs, op).1])
  {
    assert (ops + [op])[..|ops|] == ops;
  }

  lemma DirectVerdict(docs: Docs, successes: nat, key: Key, content: Json, expected: Option<int>, through: Option<nat>)
    requires (key in docs <==> successes > 0) && (key in docs ==> docs[key].version == successes)
    ensures var verdict := Verdict(successes, key, content, expected);
            Direct(docs, WriteOp(key, content, expected, through)) ==
            (if verdict.version.Err? then docs else docs[key := Row(key, verdict.version.value, content)], verdict)
  {
  }

  /** A write is accepted exactly when the content is a mapping and either nothing is expected or the
      document exists at the expected version, which is the number of its successes; written directly or
      through a materializer.  It changes its document only if it is accepted, and then to its content. */
  lemma WriteAcceptedIff(ops: seq<Op>, key: Key, content: Json, expected: Option<int>, through: Option<nat>)
    ensures var (docs, outs) := DirectRun(map[], ops);
            && |outs| == |ops|
            && var verdict := Verdict(Successes(ops, outs, key), key, content, expected);
            && DirectRun(map[], ops + [WriteOp(key, content, expected, through)]) ==
               (if verdict.version.Err? then docs else docs[key := Row(key, verdict.version.value, content)], outs + [verdict])
  {
    var (docs, outs) := DirectRun(map[], ops);
    VersionCountsWrites(ops, key);
    RunSnoc(ops, WriteOp(key, content, expected, through));
    DirectVerdict(docs, Successes(ops, outs, key), key, content, expected, through);
  }

  // ---- Read, then compare-and-set -----------------------------------------

  type Writer = nat

  /** What a writer saw when it last read a document. */
  datatype Seen = Seen(version: int, content: Json)

  /** A successful write and, for a compare-and-set, the content the writer had read. */
  datatype Success = Success(key: Key, version: int, basedOn: Option<Json>, content: Json)

  datatype History = History(docs: Docs, seen: map<(Writer, Key), Seen>, log: seq<Success>)

  datatype Move =
    | Look(w: Writer, key: Key)                      // read a row
    | Swap(w: Writer, key: Key, content: Json)       // write, expecting the version last read
    | Overwrite(key: Key, content: Json)             // write, expecting nothing

  function Moved(h: History, m: Move): History {
    match m
    case Look(w, key) =>
      if key in h.docs then h.(seen := h.seen[(w, key) := Seen(h.docs[key].version, h.docs[key].content)]) else h
    case Swap(w, key, content) =>
      if (w, key) !in h.seen then h
      else
        var seen := h.seen[(w, key)];
        var (docs, row) := Upserted(h.docs, key, content, Some(seen.version));
        if row.Err? then h
        else h.(docs := docs, log := h.log + [Success(key, row.value.version, Some(seen.content), content)])
    case Overwrite(key, content) =>
      var (docs, row) := Upserted(h.docs, key, content, None);
      if row.Err? then h
      else h.(docs := docs, log := h.log + [Success(key, row.value.version, None, content)])
  }

  function Played(moves: seq<Move>): History {
    if moves == [] then History(map[], map[], []) else Moved(Played(moves[..|moves| - 1]), moves[|moves| - 1])
  }

  function CountFor(log: seq<Success>, key: Key): nat {
    if log == [] then 0 else CountFor(log[..|log| - 1], key) + if log[|log| - 1].key == key then 1 else 0
  }

  function LastFor(log: seq<Success>, key: Key): Option<Success> {
    if log == [] then None
    else if log[|log| - 1].key == key then Some(log[|log| - 1])
    else LastFor(log[..|log| - 1], key)
  }

  /** A success carries the next version, and a compare-and-set builds on the success just before it. */
  ghost predicate BuildsOnPrevious(log: seq<Success>, i: nat)
    requires i < |log|
  {
    var s, before := log[i], LastFor(log[..i], log[i].key);
    && s.version == CountFor(log[..i], s.key) + 1
    && (s.basedOn.Some? ==> before.Some? && before.value.content == s.basedOn.value && before.value.version == s.version - 1)
  }

  ghost predicate NoUpdateLost(log: seq<Success>) {
    forall i :: 0 <= i < |log| ==> BuildsOnPrevious(log, i)
  }

  ghost predicate DocsFollowLog(h: History) {
    forall k :: (k in h.docs <==> CountFor(h.log, k) > 0) &&
                (k in h.docs ==> h.docs[k].version == CountFor(h.log, k) && LastFor(h.log, k).Some? &&
                                 LastFor(h.log, k).value.content == h.docs[k].content)
  }

  ghost predicate SeenInLog(h: History) {
    forall w, k :: (w, k) in h.seen ==>
      exists i :: 0 <= i < |h.log| && h.log[i].key == k && h.log[i].version == h.seen[(w, k)].version &&
                  h.log[i].content == h.seen[(w, k)].content
  }

  lemma {:induction false} CountGrows(log: seq<Success>, i: nat, j: nat, key: Key)
    requires i <= j <= |log|
    ensures CountFor(log[..i], key) <= CountFor(log[..j], key)
    ensures i < j && log[i].key == key ==> CountFor(log[..i], key) < CountFor(log[..j], key)
    decreases j
  {
    if i < j {
      assert log[..j][..j - 1] == log[..j - 1];
      CountGrows(log, i, j - 1, key);
    }
  }

  /** Each version of a document admits at most one success. */
  lemma VersionsDiffer(log: seq<Success>, i: nat, j: nat)
    requires NoUpdateLost(log) && i < j < |log| && log[i].key == log[j].key
    ensures log[i].version < log[j].version
  {
    assert BuildsOnPrevious(log, i) && BuildsOnPrevious(log, j);
    CountGrows(log, i, j, log[i].key);
  }

  /** The success that carries the current version is the last one. */
  lemma {:induction false} CurrentIsLast(log: seq<Success>, n: nat, i: nat)
    requires NoUpdateLost(log) && i < n <= |log| && log[i].version == CountFor(log[..n], log[i].key)
    ensures LastFor(log[..n], log[i].key) == Some(log[i])
    decreases n
  {
    var key := log[i].key;
    assert log[..n][..n - 1] == log[..n - 1];
    if i < n - 1 {
      assert BuildsOnPrevious(log, i);
      if log[n - 1].key == key {
        CountGrows(log, i, n - 1, key);
      } else {
        CurrentIsLast(log, n - 1, i);
      }
    }
  }

  ghost predicate Sound(h: History) {
    NoUpdateLost(h.log) && DocsFollowLog(h) && SeenInLog(h)
  }

  lemma LookStaysSound(h: History, w: Writer, key: Key)
    requires Sound(h)
    ensures Sound(Moved(h, Look(w, key)))
  {
    if key in h.docs {
      var s := LastIndex(h.log, key);
      assert h.docs[key].version == CountFor(h.log, key);
    }
  }

  lemma {:induction false} LastIndex(log: seq<Success>, key: Key) returns (i: nat)
    requires CountFor(log, key) > 0 && NoUpdateLost(log)
    ensures i < |log| && log[i].key == key && LastFor(log, key) == Some(log[i]) && log[i].version == CountFor(log, key)
  {
    var init := log[..|log| - 1];
    if log[|log| - 1].key == key {
      i := |log| - 1;
      assert BuildsOnPrevious(log, i);
    } else {
      forall k | 0 <= k < |init|
        ensures BuildsOnPrevious(init, k)
      {
        assert BuildsOnPrevious(log, k);
        assert init[..k] == log[..k];
      }
      i := LastIndex(init, key);
    }
  }

  lemma SuccessStaysSound(h: History, s: Success, docs: Docs)
    requires Sound(h)
    requires s.version == CountFor(h.log, s.key) + 1 && docs == h.docs[s.key := Row(s.key, s.version, s.content)]
    requires s.basedOn.Some? ==> LastFor(h.log, s.key).Some? && LastFor(h.log, s.key).value.content == s.basedOn.value &&
                                 LastFor(h.log, s.key).value.version == s.version - 1
    ensures Sound(History(docs, h.seen, h.log + [s]))
  {
    var log := h.log + [s];
    assert log[..|h.log|] == h.log;
    forall i | 0 <= i < |log|
      ensures BuildsOnPrevious(log, i)
    {
      if i < |h.log| {
        assert BuildsOnPrevious(h.log, i);
        assert log[..i] == h.log[..i];
      }
    }
    forall w, k | (w, k) in h.seen
      ensures exists i :: 0 <= i < |log| && log[i].key == k && log[i].version == h.seen[(w, k)].version &&
                          log[i].content == h.seen[(w, k)].content
    {
      var i :| 0 <= i < |h.log| && h.log[i].key == k && h.log[i].version == h.seen[(w, k)].version &&
               h.log[i].content == h.seen[(w, k)].content;
      assert log[i] == h.log[i];
    }
  }

  lemma SwapStaysSound(h: History, w: Writer, key: Key, content: Json)
    requires Sound(h)
    ensures Sound(Moved(h, Swap(w, key, content)))
  {
    if (w, key) in h.seen {
      var seen := h.seen[(w, key)];
      var (docs, row) := Upserted(h.docs, key, content, Some(seen.version));
      if row.Ok? {
        var i :| 0 <= i < |h.log| && h.log[i].key == key && h.log[i].version == seen.version && h.log[i].content == seen.content;
        assert h.log[..|h.log|] == h.log;
        CurrentIsLast(h.log, |h.log|, i);
        SuccessStaysSound(h, Success(key, row.value.version, Some(seen.content), content), docs);
      }
    }
  }

  /** However readers and writers interleave, each compare-and-set that succeeds is based on the content
      of the success just before it, so no update is lost, and versions number the successes. */
  lemma {:induction false} NoUpdateIsLost(moves: seq<Move>)
    ensures Sound(Played(moves))
  {
    if moves != [] {
      var h := Played(moves[..|moves| - 1]);
      NoUpdateIsLost(moves[..|moves| - 1]);
      match moves[|moves| - 1]
      case Look(w, key) => LookStaysSound(h, w, key);
      case Swap(w, key, content) => SwapStaysSound(h, w, key, content);
      case Overwrite(key, content) =>
        var (docs, row) := Upserted(h.docs, key, content, None);
        if row.Ok? {
          SuccessStaysSound(h, Success(key, row.value.version, None, content), docs);
        }
    }
  }

  // ---- Which compare-and-set succeeds -------------------------------------

  /** How many moves had been played when the writer last looked at the document and found it. */
  ghost function LastFound(moves: seq<Move>, w: Writer, key: Key): Option<nat> {
    if moves == [] then None
    else
      var init := moves[..|moves| - 1];
      if moves[|moves| - 1] == Look(w, key) && LastFor(Played(init).log, key).Some? then Some(|init|)
      else LastFound(init, w, key)
  }

  lemma {:induction false} FoundWithin(moves: seq<Move>, w: Writer, key: Key)
    ensures LastFound(moves, w, key).Some? ==> LastFound(moves, w, key).value < |moves|
  {
    if moves != [] {
      FoundWithin(moves[..|moves| - 1], w, key);
    }
  }

  lemma {:induction false} LastForCounts(log: seq<Success>, key: Key)
    ensures LastFor(log, key).Some? <==> CountFor(log, key) > 0
  {
    if log != [] {
      LastForCounts(log[..|log| - 1], key);
    }
  }

  /** A writer has seen the version that the document had when it last found it. */
  lemma {:induction false} SeenWhenFound(moves: seq<Move>, w: Writer, key: Key)
    ensures var n := LastFound(moves, w, key);
            && (n.Some? <==> (w, key) in Played(moves).seen)
            && (n.Some? ==> n.value < |moves| && Played(moves).seen[(w, key)].version == CountFor(Played(moves[..n.value]).log, key))
  {
    if moves != [] {
      var init := moves[..|moves| - 1];
      SeenWhenFound(init, w, key);
      NoUpdateIsLost(init);
      LastForCounts(Played(init).log, key);
      var n := LastFound(init, w, key);
      if n.Some? { assert moves[..n.value] == init[..n.value]; }
    }
  }

  /** The writer has found the document, and no success on it came after that. */
  ghost predicate UpToDate(moves: seq<Move>, w: Writer, key: Key) {
    FoundWithin(moves, w, key);
    var n := LastFound(moves, w, key);
    n.Some? && CountFor(Played(moves).log, key) == CountFor(Played(moves[..n.value]).log, key)
  }

  lemma UpToDateMeans(moves: seq<Move>, w: Writer, key: Key)
    ensures var h := Played(moves);
            UpToDate(moves, w, key) <==> (w, key) in h.seen && key in h.docs && h.docs[key].version == h.seen[(w, key)].version
  {
    SeenWhenFound(moves, w, key);
    NoUpdateIsLost(moves);
    if LastFound(moves, w, key).Some? { FoundIsThere(moves, w, key); }
  }

  lemma {:induction false} FoundIsThere(moves: seq<Move>, w: Writer, key: Key)
    requires LastFound(moves, w, key).Some?
    ensures CountFor(Played(moves).log, key) > 0
  {
    var init := moves[..|moves| - 1];
    LastForCounts(Played(init).log, key);
    if LastFound(init, w, key).Some? { FoundIsThere(init, w, key); }
    MoveKeepsCount(init, moves[|moves| - 1], key);
  }

  lemma MoveKeepsCount(moves: seq<Move>, m: Move, key: Key)
    ensures CountFor(Moved(Played(moves), m).log, key) >= CountFor(Played(moves).log, key)
  {
    var h, next := Played(moves), Moved(Played(moves), m);
    if next.log != h.log { assert next.log[..|h.log|] == h.log; }
  }

  lemma SwapMoves(h: History, w: Writer, key: Key, content: Json)
    requires Sound(h)
    ensures var next := Moved(h, Swap(w, key, content));
            if content.Object? && (w, key) in h.seen && key in h.docs && h.docs[key].version == h.seen[(w, key)].version
            then LastFor(h.log, key).Some? &&
                 next.log == h.log + [Success(key, CountFor(h.log, key) + 1, Some(LastFor(h.log, key).value.content), content)]
            else next == h
  {
    if (w, key) in h.seen && key in h.docs && h.docs[key].version == h.seen[(w, key)].version {
      SeenIsCurrent(h, w, key);
    }
  }

  lemma SeenIsCurrent(h: History, w: Writer, key: Key)
    requires Sound(h) && (w, key) in h.seen && key in h.docs && h.docs[key].version == h.seen[(w, key)].version
    ensures LastFor(h.log, key).Some? && LastFor(h.log, key).value.content == h.seen[(w, key)].content
  {
    var seen := h.seen[(w, key)];
    var i :| 0 <= i < |h.log| && h.log[i].key == key && h.log[i].version == seen.version && h.log[i].content == seen.content;
    assert h.log[..|h.log|] == h.log;
    CurrentIsLast(h.log, |h.log|, i);
  }

  /** A compare-and-set of a mapping succeeds exactly when the writer has found the document and no success on
      it came after that; then it is the next success, based on the success just before it.  Any other one
      changes nothing. */
  lemma SwapSucceedsIff(moves: seq<Move>, w: Writer, key: Key, content: Json)
    ensures var h, next := Played(moves), Played(moves + [Swap(w, key, content)]);
            if content.Object? && UpToDate(moves, w, key)
            then LastFor(h.log, key).Some? &&
                 next.log == h.log + [Success(key, CountFor(h.log, key) + 1, Some(LastFor(h.log, key).value.content), content)]
            else next == h
  {
    assert (moves + [Swap(w, key, content)])[..|moves|] == moves;
    NoUpdateIsLost(moves);
    UpToDateMeans(moves, w, key);
    SwapMoves(Played(moves), w, key, content);
  }

  /** A write that expects nothing succeeds exactly for a mapping. */
  lemma OverwriteSucceedsIff(moves: seq<Move>, key: Key, content: Json)
    ensures var h, next := Played(moves), Played(moves + [Overwrite(key, content)]);
            if content.Object? then next.log == h.log + [Success(key, CountFor(h.log, key) + 1, None, content)] else next == h
  {
    assert (moves + [Overwrite(key, content)])[..|moves|] == moves;
    NoUpdateIsLost(moves);
  }
}
