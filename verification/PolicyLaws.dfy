// What packages/compute/worker_policy.py lets through, told from the characters of keys and values.
module PolicyLaws {
  import opened Wrappers
  import opened Json
  import opened JsonText
  import opened Text
  import opened WorkerPolicy

  // ---- Keys ---------------------------------------------------------------

  /** `c` is the lower-case letter or other character `d`, or its upper-case form. */
  predicate SameLetter(c: char, d: char) {
    c == d || ('a' <= d <= 'z' && c as int == d as int - 32)
  }

  /** The word occurs in the text, in any mixture of upper and lower case. */
  ghost predicate Spells(s: string, word: string) {
    exists i :: SpellsAt(s, word, i)
  }

  ghost predicate SpellsAt(s: string, word: string, i: int) {
    0 <= i <= |s| - |word| && forall k :: 0 <= k < |word| ==> SameLetter(s[i + k], word[k])
  }

  predicate NoCapitals(word: string) {
    forall k :: 0 <= k < |word| ==> !('A' <= word[k] <= 'Z')
  }

  /** The seven words, written out. */
  ghost predicate NamesSecret(key: string) {
    || Spells(key, "api_key") || Spells(key, "secret") || Spells(key, "password") || Spells(key, "token")
    || Spells(key, "authorization") || Spells(key, "connection_id") || Spells(key, "secret_blob")
  }

  lemma WordAt(s: string, word: string, i: nat)
    requires i <= |s|
    ensures word <= s[i..] <==> |word| <= |s| - i && forall k :: 0 <= k < |word| ==> s[i + k] == word[k]
  {
    if |word| <= |s| - i {
      assert forall k :: 0 <= k < |word| ==> s[i..][k] == s[i + k];
    }
  }

  lemma LowerAt(s: string, word: string, i: nat)
    requires NoCapitals(word) && i <= |s|
    ensures word <= Lower(s)[i..] <==> SpellsAt(s, word, i)
  {
    WordAt(Lower(s), word, i);
  }

  lemma ContainsIff(s: string, word: string)
    requires NoCapitals(word)
    ensures Contains(Lower(s), word) <==> Spells(s, word)
  {
    if Contains(Lower(s), word) {
      var i :| 0 <= i <= |Lower(s)| && word <= Lower(s)[i..];
      LowerAt(s, word, i);
    }
    if Spells(s, word) {
      var i :| SpellsAt(s, word, i);
      LowerAt(s, word, i);
    }
  }

  lemma SecretLikeIff(key: string)
    ensures SecretLike(key) <==> NamesSecret(key)
  {
    var low := Lower(key);
    ContainsIff(key, "api_key");
    ContainsIff(key, "secret");
    ContainsIff(key, "password");
    ContainsIff(key, "token");
    ContainsIff(key, "authorization");
    ContainsIff(key, "connection_id");
    ContainsIff(key, "secret_blob");
    EachWord(low);
  }

  lemma EachWord(low: string)
    ensures (exists f :: f in SECRET_KEY_FRAGMENTS && Contains(low, f)) <==>
            || Contains(low, "api_key") || Contains(low, "secret") || Contains(low, "password") || Contains(low, "token")
            || Contains(low, "authorization") || Contains(low, "connection_id") || Contains(low, "secret_blob")
  {
    var words := SECRET_KEY_FRAGMENTS;
    assert |words| == 7;
    assert words[0] in words && words[1] in words && words[2] in words && words[3] in words;
    assert words[4] in words && words[5] in words && words[6] in words;
  }

  // ---- Values -------------------------------------------------------------

  /** The item is kept at the top of a payload: its key names no secret and its value no environment file. */
  ghost predicate Passes(m: Member) {
    && !NamesSecret(m.key)
    && !(m.value.String? &&
         (Around(m.value.text, ".env") || Around(m.value.text, ".env.local") || Around(m.value.text, ".env.production")))
  }

  lemma KeepsIff(m: Member)
    ensures Keeps(m) <==> Passes(m)
  {
    SecretLikeIff(m.key);
    if m.value.String? {
      StripIff(m.value.text, ".env");
      StripIff(m.value.text, ".env.local");
      StripIff(m.value.text, ".env.production");
    }
  }

  /** A mapping item that gives a secret away: its key names one and its value is a text that is not blank. */
  ghost predicate GivesAway(m: Member) {
    NamesSecret(m.key) && m.value.String? && !AllSpace(m.value.text)
  }

  lemma LeaksIff(m: Member)
    ensures Leaks(m) <==> GivesAway(m)
  {
    SecretLikeIff(m.key);
    if m.value.String? { BlankIff(m.value.text); }
  }

  /** Nothing at any depth gives a secret away. */
  ghost predicate Discreet(j: Json) {
    forall sub :: Within(sub, j) && sub.Object? ==> forall m :: m in sub.members ==> !GivesAway(m)
  }

  lemma DiscreetIff(j: Json)
    ensures LeakFree(j) <==> Discreet(j)
  {
    forall m: Member
      ensures Leaks(m) <==> GivesAway(m)
    {
      LeaksIff(m);
    }
  }

  // ---- What is sent -------------------------------------------------------

  /** The numbers of the items that are kept. */
  ghost function KeptAt(payload: Payload): seq<nat> {
    if payload == [] then []
    else
      var n := |payload| - 1;
      if Keeps(payload[n]) then KeptAt(payload[..n]) + [n] else KeptAt(payload[..n])
  }

  /** `at` numbers the items of `kept` within `payload`, in their order. */
  ghost predicate Numbers(at: seq<nat>, kept: Payload, payload: Payload) {
    && |at| == |kept|
    && (forall k :: 0 <= k < |at| ==> at[k] < |payload| && kept[k] == payload[at[k]])
    && (forall k, l :: 0 <= k < l < |at| ==> at[k] < at[l])
  }

  lemma NumbersMore(at: seq<nat>, kept: Payload, init: Payload, last: Member)
    requires Numbers(at, kept, init)
    ensures Numbers(at, kept, init + [last]) && Numbers(at + [|init|], kept + [last], init + [last])
  {
  }

  lemma LastMember(payload: Payload)
    requires payload != []
    ensures payload == payload[..|payload| - 1] + [payload[|payload| - 1]]
  {
  }

  lemma {:induction false} KeptNumbers(payload: Payload)
    ensures Numbers(KeptAt(payload), Kept(payload), payload)
  {
    if payload != [] {
      var init, last := payload[..|payload| - 1], payload[|payload| - 1];
      KeptNumbers(init);
      NumbersMore(KeptAt(init), Kept(init), init, last);
      LastMember(payload);
    }
  }

  lemma {:induction false} KeptExactly(payload: Payload, i: nat)
    requires i < |payload|
    ensures i in KeptAt(payload) <==> Keeps(payload[i])
  {
    var n := |payload| - 1;
    if i < n {
      KeptExactly(payload[..n], i);
    } else {
      KeptNumbers(payload[..n]);
    }
  }

  /** What survives the filter: the items that pass, in their order. */
  lemma Survivors(payload: Payload) returns (at: seq<nat>)
    ensures Numbers(at, Kept(payload), payload)
    ensures forall i :: 0 <= i < |payload| ==> (i in at <==> Passes(payload[i]))
  {
    at := KeptAt(payload);
    KeptNumbers(payload);
    forall i | 0 <= i < |payload|
      ensures i in at <==> Passes(payload[i])
    {
      KeptExactly(payload, i);
      KeepsIff(payload[i]);
    }
  }

  /** A payload is sent exactly when its survivors print to at most 512000 characters and give no secret away
      at any depth, and then it is the survivors that are sent.  Too long is found before too open. */
  lemma SentIff(payload: Payload)
    ensures var kept, r := Kept(payload), Sanitized(Some(payload), DEFAULT_MAX_PAYLOAD_BYTES);
            && (r.Ok? <==> payload == [] || (|Dumped(Object(kept))| <= 512_000 && Discreet(Object(kept))))
            && (r.Ok? ==> r.value == kept)
            && (r.Err? ==> (r.error == TooLarge(512_000) <==> |Dumped(Object(kept))| > 512_000))
  {
    var kept := Kept(payload);
    if payload != [] {
      SanitizedAccepts(payload, DEFAULT_MAX_PAYLOAD_BYTES);
    }
    WidthIsLength(Object(kept));
    DiscreetIff(Object(kept));
  }

  // ---- Where a secret was found -------------------------------------------

  /** A place in a JSON value: how the path to it is printed, the key it stands under, and what is there. */
  datatype Place = Place(path: string, key: Option<string>, value: Json)

  /** Follow the turns: item numbers of mappings and lists on the way down. */
  function Followed(j: Json, path: string, turns: seq<nat>): Option<Place>
    decreases turns
  {
    if turns == [] then None
    else
      var i, rest := turns[0], turns[1..];
      match j
      case Object(members) =>
        if i >= |members| then None
        else
          var sub := if path == "" then members[i].key else path + "." + members[i].key;
          if rest == [] then Some(Place(sub, Some(members[i].key), members[i].value)) else Followed(members[i].value, sub, rest)
      case Array(items) =>
        if i >= |items| then None
        else
          var sub := path + "[" + Decimal(i) + "]";
          if rest == [] then Some(Place(sub, None, items[i])) else Followed(items[i], sub, rest)
      case _ => None
  }

  /** The turns lead to an item that gives a secret away, and its path and text are the ones reported. */
  ghost predicate Leads(j: Json, path: string, turns: seq<nat>, report: (string, string)) {
    var place := Followed(j, path, turns);
    && place.Some? && place.value.path == report.0 && place.value.value == String(report.1) && place.value.key.Some?
    && GivesAway(Member(place.value.key.value, place.value.value))
  }

  /** One turn, from `j` to `inner`, prints its path as `sub`. */
  predicate StepsTo(j: Json, path: string, i: nat, inner: Json, sub: string) {
    || (j.Object? && i < |j.members| && inner == j.members[i].value &&
        sub == if path == "" then j.members[i].key else path + "." + j.members[i].key)
    || (j.Array? && i < |j.items| && inner == j.items[i] && sub == path + "[" + Decimal(i) + "]")
  }

  lemma LeadsDown(j: Json, path: string, i: nat, inner: Json, sub: string, turns: seq<nat>, report: (string, string))
    requires Leads(inner, sub, turns, report) && StepsTo(j, path, i, inner, sub)
    ensures Leads(j, path, [i] + turns, report)
  {
    assert ([i] + turns)[1..] == turns;
  }

  /** Each reported path leads to a secret that is given away. */
  lemma {:induction false} WalkLeads(j: Json, path: string, n: nat) returns (turns: seq<nat>)
    requires n < |WalkStrings(j, path)|
    ensures Leads(j, path, turns, WalkStrings(j, path)[n])
    decreases j, 2, 0
  {
    match j
    case Object(members) =>
      assert members[0..] == members;
      turns := MembersLead(j, 0, path, n);
    case Array(items) =>
      assert items[0..] == items;
      turns := ItemsLead(j, 0, path, n);
  }

  lemma LeakLeads(j: Json, b: nat, path: string)
    requires j.Object? && b < |j.members| && Leaks(j.members[b])
    ensures Leads(j, path, [b], (SubPath(path, j.members[b].key), j.members[b].value.text))
  {
    var m := j.members[b];
    LeaksIff(m);
    assert [b][1..] == [];
    assert m == Member(m.key, m.value) && m.value == String(m.value.text);
  }

  /** The reports from item `b` on: its own, those inside it, those behind it. */
  lemma MembersParts(members: seq<Member>, b: nat, path: string)
    requires b < |members|
    ensures var m := members[b];
            var sub := SubPath(path, m.key);
            WalkMembers(members[b..], path) ==
            (if Leaks(m) then [(sub, m.value.text)] else []) + WalkStrings(m.value, sub) + WalkMembers(members[b + 1..], path)
  {
    assert members[b..][0] == members[b] && members[b..][1..] == members[b + 1..];
  }

  lemma InParts<T>(a: seq<T>, b: seq<T>, c: seq<T>, n: nat)
    requires n < |a + b + c|
    ensures (a + b + c)[n] == if n < |a| then a[n] else if n < |a| + |b| then b[n - |a|] else c[n - |a| - |b|]
  {
  }

  lemma {:induction false} MembersLead(j: Json, b: nat, path: string, n: nat) returns (turns: seq<nat>)
    requires j.Object? && b <= |j.members| && n < |WalkMembers(j.members[b..], path)|
    ensures Leads(j, path, turns, WalkMembers(j.members[b..], path)[n])
    decreases j, 1, |j.members| - b
  {
    var m := j.members[b];
    var sub := SubPath(path, m.key);
    var own, inner := if Leaks(m) then [(sub, m.value.text)] else [], WalkStrings(m.value, sub);
    MembersParts(j.members, b, path);
    InParts(own, inner, WalkMembers(j.members[b + 1..], path), n);
    if n < |own| {
      turns := [b];
      LeakLeads(j, b, path);
    } else if n < |own| + |inner| {
      var more := WalkLeads(m.value, sub, n - |own|);
      turns := [b] + more;
      LeadsDown(j, path, b, m.value, sub, more, inner[n - |own|]);
    } else {
      turns := MembersLead(j, b + 1, path, n - |own| - |inner|);
    }
  }

  lemma {:induction false} ItemsLead(j: Json, b: nat, path: string, n: nat) returns (turns: seq<nat>)
    requires j.Array? && b <= |j.items| && n < |WalkItems(j.items[b..], b, path)|
    ensures Leads(j, path, turns, WalkItems(j.items[b..], b, path)[n])
    decreases j, 1, |j.items| - b
  {
    var sub := path + "[" + Decimal(b) + "]";
    var inner := WalkStrings(j.items[b], sub);
    assert j.items[b..][0] == j.items[b] && j.items[b..][1..] == j.items[b + 1..];
    if n < |inner| {
      var more := WalkLeads(j.items[b], sub, n);
      turns := [b] + more;
      LeadsDown(j, path, b, j.items[b], sub, more, inner[n]);
    } else {
      turns := ItemsLead(j, b + 1, path, n - |inner|);
    }
  }

  /** The path in the error leads to a secret among the survivors. */
  lemma BlamedPath(payload: Payload) returns (turns: seq<nat>, text: string)
    requires Sanitized(Some(payload), DEFAULT_MAX_PAYLOAD_BYTES).Err?
    requires Sanitized(Some(payload), DEFAULT_MAX_PAYLOAD_BYTES).error.SecretLeft?
    ensures Leads(Object(Kept(payload)), "", turns, (Sanitized(Some(payload), DEFAULT_MAX_PAYLOAD_BYTES).error.path, text))
  {
    turns := WalkLeads(Object(Kept(payload)), "", 0);
    text := WalkStrings(Object(Kept(payload)), "")[0].1;
  }
}
