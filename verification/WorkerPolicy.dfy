// packages/compute/worker_policy.py: what a work-unit payload may carry.
module WorkerPolicy {
  import opened Wrappers
  import opened Json
  import opened Text

  const DEFAULT_MAX_PAYLOAD_BYTES: int := 512_000

  const SECRET_KEY_FRAGMENTS: seq<string> :=
    ["api_key", "secret", "password", "token", "authorization", "connection_id", "secret_blob"]

  const BLOCKED_ENV_PATHS: seq<string> := [".env", ".env.local", ".env.production"]

  type Payload = seq<Member>

  datatype PolicyError = TooLarge(maxBytes: int) | SecretLeft(path: string)

  /** `str.lower` on ASCII letters. */
  function Lower(s: string): string {
    seq(|s|, i requires 0 <= i < |s| => if 'A' <= s[i] <= 'Z' then (s[i] as int + 32) as char else s[i])
  }

  predicate Contains(s: string, part: string) {
    exists i :: 0 <= i <= |s| && part <= s[i..]
  }

  predicate SecretLike(key: string) {
    exists f :: f in SECRET_KEY_FRAGMENTS && Contains(Lower(key), f)
  }

  predicate Blank(s: string) {
    Strip(s) == ""
  }

  /** A mapping item that pairs a secret-like key with a non-blank string. */
  predicate Leaks(m: Member) {
    SecretLike(m.key) && m.value.String? && !Blank(m.value.text)
  }

  function SubPath(path: string, key: string): string {
    if path != "" then path + "." + key else key
  }

  /** Every leak at any depth, with the path that leads to it. */
  function WalkStrings(j: Json, path: string): seq<(string, string)>
    decreases j, 0
  {
    match j
    case Object(members) => WalkMembers(members, path)
    case Array(items) => WalkItems(items, 0, path)
    case _ => []
  }

  function WalkMembers(members: seq<Member>, path: string): seq<(string, string)>
    decreases members, 1
  {
    if members == [] then []
    else
      var sub := SubPath(path, members[0].key);
      (if Leaks(members[0]) then [(sub, members[0].value.text)] else []) +
      WalkStrings(members[0].value, sub) + WalkMembers(members[1..], path)
  }

  function WalkItems(items: seq<Json>, idx: nat, path: string): seq<(string, string)>
    decreases items, 1
  {
    if items == [] then []
    else WalkStrings(items[0], path + "[" + Decimal(idx) + "]") + WalkItems(items[1..], idx + 1, path)
  }

  /** No mapping at any depth of `j` has a leaking item. */
  ghost predicate LeakFree(j: Json) {
    forall sub :: Within(sub, j) && sub.Object? ==> forall m :: m in sub.members ==> !Leaks(m)
  }

  lemma LeakFreeMembers(members: seq<Member>)
    ensures LeakFree(Object(members)) <==>
            forall i :: 0 <= i < |members| ==> !Leaks(members[i]) && LeakFree(members[i].value)
  {
    var j := Object(members);
    if LeakFree(j) {
      forall i | 0 <= i < |members|
        ensures !Leaks(members[i]) && LeakFree(members[i].value)
      {
        assert Within(j, j) && members[i] in j.members;
        forall sub | Within(sub, members[i].value)
          ensures Within(sub, j)
        {
        }
      }
    }
    if forall i :: 0 <= i < |members| ==> !Leaks(members[i]) && LeakFree(members[i].value) {
      forall sub | Within(sub, j) && sub.Object?
        ensures forall m :: m in sub.members ==> !Leaks(m)
      {
        if sub != j {
          var i :| 0 <= i < |members| && Within(sub, members[i].value);
          assert LeakFree(members[i].value);
        }
      }
    }
  }

  lemma LeakFreeItems(items: seq<Json>)
    ensures LeakFree(Array(items)) <==> forall i :: 0 <= i < |items| ==> LeakFree(items[i])
  {
    var j := Array(items);
    if LeakFree(j) {
      forall i | 0 <= i < |items|
        ensures LeakFree(items[i])
      {
        forall sub | Within(sub, items[i])
          ensures Within(sub, j)
        {
        }
      }
    }
    if forall i :: 0 <= i < |items| ==> LeakFree(items[i]) {
      forall sub | Within(sub, j) && sub.Object?
        ensures forall m :: m in sub.members ==> !Leaks(m)
      {
        var i :| 0 <= i < |items| && Within(sub, items[i]);
        assert LeakFree(items[i]);
      }
    }
  }

  /** The walk finds nothing exactly when there is no leak at any depth. */
  lemma {:induction false} WalkIsComplete(j: Json, path: string)
    ensures WalkStrings(j, path) == [] <==> LeakFree(j)
    decreases j, 0
  {
    match j
    case Object(members) =>
      WalkMembersComplete(members, path);
      LeakFreeMembers(members);
    case Array(items) =>
      WalkItemsComplete(items, 0, path);
      LeakFreeItems(items);
    case _ =>
  }

  lemma {:induction false} WalkMembersComplete(members: seq<Member>, path: string)
    ensures WalkMembers(members, path) == [] <==>
            forall i :: 0 <= i < |members| ==> !Leaks(members[i]) && LeakFree(members[i].value)
    decreases members, 1
  {
    if members != [] {
      WalkIsComplete(members[0].value, SubPath(path, members[0].key));
      WalkMembersComplete(members[1..], path);
      assert forall i :: 1 <= i < |members| ==> members[i] == members[1..][i - 1];
    }
  }

  lemma {:induction false} WalkItemsComplete(items: seq<Json>, idx: nat, path: string)
    ensures WalkItems(items, idx, path) == [] <==> forall i :: 0 <= i < |items| ==> LeakFree(items[i])
    decreases items, 1
  {
    if items != [] {
      WalkIsComplete(items[0], path + "[" + Decimal(idx) + "]");
      WalkItemsComplete(items[1..], idx + 1, path);
      assert forall i :: 1 <= i < |items| ==> items[i] == items[1..][i - 1];
    }
  }

  // ---- Sanitising ---------------------------------------------------------

  /** A top-level item that survives. */
  predicate Keeps(m: Member) {
    !SecretLike(m.key) && !(m.value.String? && Strip(m.value.text) in BLOCKED_ENV_PATHS)
  }

  function Kept(payload: Payload): Payload {
    if payload == [] then []
    else Kept(payload[..|payload| - 1]) + if Keeps(payload[|payload| - 1]) then [payload[|payload| - 1]] else []
  }

  /** The specification of `SanitizeWorkUnitPayload`. */
  function Sanitized(payload: Option<Payload>, maxBytes: int): Result<Payload, PolicyError> {
    if payload.None? || payload.value == [] then Ok([])
    else
      var clean := Kept(payload.value);
      var leaked := WalkStrings(Object(clean), "");
      if Width(Object(clean)) > maxBytes then Err(TooLarge(maxBytes))
      else if leaked != [] then Err(SecretLeft(leaked[0].0))
      else Ok(clean)
  }

  method SanitizeWorkUnitPayload(payload: Option<Payload>, maxBytes: int) returns (r: Result<Payload, PolicyError>)
    ensures r == Sanitized(payload, maxBytes)
  {
    if payload.None? || payload.value == [] {
      return Ok([]);
    }
    var items := payload.value;
    var clean: Payload := [];
    for i := 0 to |items|
      invariant clean == Kept(items[..i])
    {
      assert items[..i + 1][..i] == items[..i];
      if SecretLike(items[i].key) {
        continue;
      }
      if items[i].value.String? && Strip(items[i].value.text) in BLOCKED_ENV_PATHS {
        continue;
      }
      clean := clean + [items[i]];
    }
    assert items[..|items|] == items;
    if Width(Object(clean)) > maxBytes {
      return Err(TooLarge(maxBytes));
    }
    var leaked := WalkStrings(Object(clean), "");
    if leaked != [] {
      return Err(SecretLeft(leaked[0].0));
    }
    r := Ok(clean);
  }

  lemma {:induction false} KeptIsFilter(payload: Payload)
    ensures forall m :: m in Kept(payload) <==> m in payload && Keeps(m)
  {
    if payload != [] {
      KeptIsFilter(payload[..|payload| - 1]);
      assert payload == payload[..|payload| - 1] + [payload[|payload| - 1]];
    }
  }

  lemma {:induction false} KeptAll(payload: Payload)
    requires forall m :: m in payload ==> Keeps(m)
    ensures Kept(payload) == payload
  {
    if payload != [] {
      KeptAll(payload[..|payload| - 1]);
      assert payload == payload[..|payload| - 1] + [payload[|payload| - 1]];
    }
  }

  /** What a caller gets: no leak at any depth, no secret-like top-level key, and nothing left for a
      second pass to remove or refuse. */
  lemma SanitizedIsStable(payload: Option<Payload>, maxBytes: int)
    requires Sanitized(payload, maxBytes).Ok?
    ensures var clean := Sanitized(payload, maxBytes).value;
            && Sanitized(Some(clean), maxBytes) == Ok(clean)
            && LeakFree(Object(clean))
            && forall m :: m in clean ==> !SecretLike(m.key) && m in payload.value
  {
    var clean := Sanitized(payload, maxBytes).value;
    WalkIsComplete(Object(clean), "");
    if payload.Some? {
      KeptIsFilter(payload.value);
    }
    KeptAll(clean);
  }

  /** A payload is accepted exactly when what survives the filter is small enough and leak free. */
  lemma SanitizedAccepts(payload: Payload, maxBytes: int)
    requires payload != []
    ensures Sanitized(Some(payload), maxBytes).Ok? <==>
            Width(Object(Kept(payload))) <= maxBytes && LeakFree(Object(Kept(payload)))
  {
    WalkIsComplete(Object(Kept(payload)), "");
  }
}
