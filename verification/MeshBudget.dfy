// Where a worker's patch stops when its files do not all fit:
// packages/compute/mesh_workspace_merge_legacy.py.
module MeshBudget {
  import opened Wrappers
  import opened Utf8
  import opened FileTree
  import opened MeshFiles
  import opened MeshMerge

  /** The loop reads the file: it changed, its path is safe, and it is there. */
  predicate IsRead(before: map<string, string>, ws: Tree, item: Item) {
    !(item.0 in before && before[item.0] == item.1) && IsSafeRelPath(item.0) && ReadAt(ws, item.0).Some?
  }

  /** What one item adds to the patch: its text, if it is read and is UTF-8. */
  function Added(before: map<string, string>, ws: Tree, item: Item): seq<Item> {
    if IsRead(before, ws, item) && Decode(ReadAt(ws, item.0).value).Some?
    then [(item.0, Decode(ReadAt(ws, item.0).value).value)] else []
  }

  function AddedBytes(before: map<string, string>, ws: Tree, item: Item): nat {
    if Added(before, ws, item) == [] then 0 else |ReadAt(ws, item.0).value|
  }

  function Texts(before: map<string, string>, ws: Tree, items: seq<Item>): seq<Item> {
    if items == [] then [] else Added(before, ws, items[0]) + Texts(before, ws, items[1..])
  }

  function Bytes(before: map<string, string>, ws: Tree, items: seq<Item>): nat {
    if items == [] then 0 else AddedBytes(before, ws, items[0]) + Bytes(before, ws, items[1..])
  }

  /** With the first `m` items behind it, the loop comes to a file that is too much. */
  predicate TooMuchAt(before: map<string, string>, ws: Tree, items: seq<Item>, maxBytes: int, total: nat, m: nat)
    requires m < |items|
  {
    IsRead(before, ws, items[m]) && total + Bytes(before, ws, items[..m]) + |ReadAt(ws, items[m].0).value| > maxBytes
  }

  /** The items before `n` are those the loop gets through. */
  ghost predicate CutsOffAt(before: map<string, string>, ws: Tree, items: seq<Item>, maxBytes: int, total: nat, n: nat) {
    && n <= |items|
    && (n < |items| ==> TooMuchAt(before, ws, items, maxBytes, total, n))
    && forall m :: 0 <= m < n ==> !TooMuchAt(before, ws, items, maxBytes, total, m)
  }

  lemma FirstOf(before: map<string, string>, ws: Tree, items: seq<Item>, m: nat)
    requires 0 < m <= |items|
    ensures Bytes(before, ws, items[..m]) == AddedBytes(before, ws, items[0]) + Bytes(before, ws, items[1..][..m - 1])
    ensures Texts(before, ws, items[..m]) == Added(before, ws, items[0]) + Texts(before, ws, items[1..][..m - 1])
  {
    assert items[..m][0] == items[0] && items[..m][1..] == items[1..][..m - 1];
  }

  lemma TooMuchLater(before: map<string, string>, ws: Tree, items: seq<Item>, maxBytes: int, total: nat, m: nat)
    requires 0 < m < |items|
    ensures TooMuchAt(before, ws, items, maxBytes, total, m) <==>
            TooMuchAt(before, ws, items[1..], maxBytes, total + AddedBytes(before, ws, items[0]), m - 1)
  {
    FirstOf(before, ws, items, m);
    assert items[1..][m - 1] == items[m];
  }

  lemma CutsOffLater(before: map<string, string>, ws: Tree, items: seq<Item>, maxBytes: int, total: nat, n: nat)
    requires items != [] && !TooMuchAt(before, ws, items, maxBytes, total, 0)
    requires CutsOffAt(before, ws, items[1..], maxBytes, total + AddedBytes(before, ws, items[0]), n)
    ensures CutsOffAt(before, ws, items, maxBytes, total, n + 1)
  {
    var later := total + AddedBytes(before, ws, items[0]);
    forall m | 0 <= m < n + 1
      ensures !TooMuchAt(before, ws, items, maxBytes, total, m)
    {
      if m > 0 {
        TooMuchLater(before, ws, items, maxBytes, total, m);
        assert !TooMuchAt(before, ws, items[1..], maxBytes, later, m - 1);
      }
    }
    if n + 1 < |items| {
      TooMuchLater(before, ws, items, maxBytes, total, n + 1);
    }
  }

  lemma NotYet(before: map<string, string>, ws: Tree, items: seq<Item>, maxBytes: int, total: nat)
    requires items != []
    ensures TooMuchAt(before, ws, items, maxBytes, total, 0) <==> Judged(before, items[0], ws, maxBytes, total).Stop?
  {
    assert items[..0] == [];
  }

  lemma FirstTurn(before: map<string, string>, after: seq<Item>, ws: Tree, maxBytes: int, total: nat)
    requires after != [] && !Judged(before, after[0], ws, maxBytes, total).Stop?
    ensures Patch(before, after, ws, maxBytes, total) ==
            Added(before, ws, after[0]) + Patch(before, after[1..], ws, maxBytes, total + AddedBytes(before, ws, after[0]))
  {
  }

  /** The patch is the UTF-8 text of the files read up to the first one that does not fit behind those before
      it; nothing behind that one is carried, even if it would fit. */
  lemma {:induction false} PatchIsCutOff(before: map<string, string>, after: seq<Item>, ws: Tree, maxBytes: int, total: nat)
    returns (n: nat)
    ensures CutsOffAt(before, ws, after, maxBytes, total, n)
    ensures Patch(before, after, ws, maxBytes, total) == Texts(before, ws, after[..n])
    decreases |after|
  {
    n := 0;
    if after != [] {
      NotYet(before, ws, after, maxBytes, total);
      if Judged(before, after[0], ws, maxBytes, total).Stop? {
        NothingTaken(before, after, ws);
      } else {
        var m := PatchIsCutOff(before, after[1..], ws, maxBytes, total + AddedBytes(before, ws, after[0]));
        n := m + 1;
        CutsOffLater(before, ws, after, maxBytes, total, m);
        FirstOf(before, ws, after, n);
        FirstTurn(before, after, ws, maxBytes, total);
      }
    }
  }

  lemma NothingTaken(before: map<string, string>, after: seq<Item>, ws: Tree)
    ensures Texts(before, ws, after[..0]) == []
  {
    assert after[..0] == [];
  }
}
