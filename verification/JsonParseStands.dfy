/** What a parsed document stands for, as a relation between the document and the result, and that a parse satisfies it. */
module JsonParseStands {
  import opened Pairs
  import opened JsonDocuments
  import opened JsonGrammar
  import opened JsonParse

  function NamesOf(members: seq<Member>): seq<string> { seq(|members|, i requires 0 <= i < |members| => members[i].key.text) }
  function KeysOf(result: seq<(string, Json)>): seq<string> { seq(|result|, i requires 0 <= i < |result| => result[i].0) }

  /** `a` occurs before `b` first does. */
  ghost predicate ComesBefore(names: seq<string>, a: string, b: string) {
    exists n :: 0 <= n <= |names| && a in names[..n] && b !in names[..n]
  }

  /** The keys are the names that occur, in the order in which they first occur. */
  ghost predicate InOrder(names: seq<string>, keys: seq<string>) {
    && (forall x :: x in keys <==> x in names)
    && (forall k, l :: 0 <= k < l < |keys| ==> ComesBefore(names, keys[k], keys[l]))
  }

  /** The name at `i` is the one of its kind that the policy keeps. */
  predicate KeptAt(policy: Policy, names: seq<string>, i: nat) {
    && i < |names|
    && (policy.Last? || names[i] !in names[..i])
    && (policy.First? || names[i] !in names[i + 1..])
  }

  /** The document stands for the result. */
  ghost predicate Stands(policy: Policy, doc: Doc, result: Json)
    decreases doc
  {
    match (doc, result)
    case (Null, JNull) => true
    case (Bool(b), JBool(c)) => b == c
    case (Number(n), JNumber(raw)) => raw == Spell(n)
    case (Text(q), JString(text)) => text == q.text
    case (Array(items), JArray(results)) =>
      |results| == |items| && forall i :: 0 <= i < |items| ==> Stands(policy, items[i], results[i])
    case (Object(members), JObject(results)) =>
      && InOrder(NamesOf(members), KeysOf(results))
      && forall k :: 0 <= k < |results| ==> EntryStands(policy, members, results[k])
    case _ => false
  }

  /** The entry has what the kept member of its name stands for. */
  ghost predicate EntryStands(policy: Policy, members: seq<Member>, e: (string, Json))
    decreases members
  {
    exists i :: 0 <= i < |members| && KeptAt(policy, NamesOf(members), i) && MemberStands(policy, members[i], e)
  }

  ghost predicate MemberStands(policy: Policy, m: Member, e: (string, Json))
    decreases m
  {
    match m case Member(key, value) => e.0 == key.text && Stands(policy, value, e.1)
  }

  // ----- adding one name -----

  lemma BeforeSnoc(names: seq<string>, name: string, a: string, b: string)
    requires ComesBefore(names, a, b)
    ensures ComesBefore(names + [name], a, b)
  {
    var n :| 0 <= n <= |names| && a in names[..n] && b !in names[..n];
    assert (names + [name])[..n] == names[..n];
  }

  lemma InOrderKnown(names: seq<string>, keys: seq<string>, name: string)
    requires InOrder(names, keys) && name in keys
    ensures InOrder(names + [name], keys)
  {
    forall k, l | 0 <= k < l < |keys| ensures ComesBefore(names + [name], keys[k], keys[l]) {
      BeforeSnoc(names, name, keys[k], keys[l]);
    }
  }

  lemma InOrderNew(names: seq<string>, keys: seq<string>, name: string)
    requires InOrder(names, keys) && name !in keys
    ensures InOrder(names + [name], keys + [name])
  {
    var all, more := names + [name], keys + [name];
    forall k, l | 0 <= k < l < |more| ensures ComesBefore(all, more[k], more[l]) {
      if l < |keys| {
        BeforeSnoc(names, name, keys[k], keys[l]);
      } else {
        assert keys[k] in names && all[..|names|] == names;
      }
    }
  }

  lemma DistinctInOrder(names: seq<string>, keys: seq<string>, k: nat, l: nat)
    requires InOrder(names, keys) && k < l < |keys|
    ensures keys[k] != keys[l]
  {
    assert ComesBefore(names, keys[k], keys[l]);
  }

  /** What was kept before is kept still, unless a later one of its name replaces it. */
  lemma KeptStill(policy: Policy, names: seq<string>, name: string, i: nat)
    requires KeptAt(policy, names, i) && (policy.First? || names[i] != name)
    ensures KeptAt(policy, names + [name], i)
  {
    var all := names + [name];
    assert all[..i] == names[..i] && all[i + 1..] == names[i + 1..] + [name];
  }

  /** The last is kept under `Last`, and under any policy if its name is new. */
  lemma LastKept(policy: Policy, names: seq<string>, name: string)
    requires policy.Last? || name !in names
    ensures KeptAt(policy, names + [name], |names|)
  {
    var all := names + [name];
    assert all[..|names|] == names && all[|names| + 1..] == [];
  }

  // ----- a meaning is what the document stands for -----

  ghost predicate ObjectStands(policy: Policy, members: seq<Member>, results: seq<(string, Json)>) {
    && InOrder(NamesOf(members), KeysOf(results))
    && forall k :: 0 <= k < |results| ==> EntryStands(policy, members, results[k])
  }

  lemma NamesSnoc(members: seq<Member>, m: Member)
    ensures NamesOf(members + [m]) == NamesOf(members) + [m.key.text]
  {
  }

  lemma EntryStill(policy: Policy, members: seq<Member>, m: Member, e: (string, Json))
    requires EntryStands(policy, members, e) && (policy.First? || e.0 != m.key.text)
    ensures EntryStands(policy, members + [m], e)
  {
    var i :| 0 <= i < |members| && KeptAt(policy, NamesOf(members), i) && MemberStands(policy, members[i], e);
    NamesSnoc(members, m);
    KeptStill(policy, NamesOf(members), m.key.text, i);
    assert (members + [m])[i] == members[i];
  }

  lemma EntryLast(policy: Policy, members: seq<Member>, m: Member, e: (string, Json))
    requires MemberStands(policy, m, e) && (policy.Last? || m.key.text !in NamesOf(members))
    ensures EntryStands(policy, members + [m], e)
  {
    NamesSnoc(members, m);
    LastKept(policy, NamesOf(members), m.key.text);
    assert (members + [m])[|members|] == m;
  }

  lemma PositionOfKey(r: seq<(string, Json)>, name: string)
    ensures Position(BY_TEXT, r, name) < |r| <==> name in KeysOf(r)
  {
    var p, keys := Position(BY_TEXT, r, name), KeysOf(r);
    if p < |r| {
      assert keys[p] == name;
    }
    if name in keys {
      var k :| 0 <= k < |keys| && keys[k] == name;
      assert BY_TEXT.same(r[k].0, name);
    }
  }

  lemma KnownMember(policy: Policy, members: seq<Member>, m: Member, r: seq<(string, Json)>, e: (string, Json), p: nat)
    requires ObjectStands(policy, members, r) && MemberStands(policy, m, e) && !policy.Reject?
    requires p < |r| && r[p].0 == m.key.text
    ensures ObjectStands(policy, members + [m], if policy.First? then r else r[p := e])
  {
    var names, keys := NamesOf(members), KeysOf(r);
    var t := if policy.First? then r else r[p := e];
    NamesSnoc(members, m);
    assert keys[p] == m.key.text && KeysOf(t) == keys;
    InOrderKnown(names, keys, m.key.text);
    forall k | 0 <= k < |t| ensures EntryStands(policy, members + [m], t[k]) {
      if policy.Last? && k == p {
        EntryLast(policy, members, m, e);
      } else {
        if policy.Last? {
          DistinctInOrder(names, keys, if k < p then k else p, if k < p then p else k);
        }
        EntryStill(policy, members, m, r[k]);
      }
    }
  }

  lemma NewMember(policy: Policy, members: seq<Member>, m: Member, r: seq<(string, Json)>, e: (string, Json))
    requires ObjectStands(policy, members, r) && MemberStands(policy, m, e) && m.key.text !in KeysOf(r)
    ensures ObjectStands(policy, members + [m], r + [e])
  {
    NamesSnoc(members, m);
    assert KeysOf(r + [e]) == KeysOf(r) + [m.key.text];
    InOrderNew(NamesOf(members), KeysOf(r), m.key.text);
    EntryLast(policy, members, m, e);
    forall k | 0 <= k < |r| ensures EntryStands(policy, members + [m], (r + [e])[k]) {
      assert KeysOf(r)[k] == r[k].0;
      EntryStill(policy, members, m, r[k]);
    }
  }

  ghost predicate ValueStands(accepts: Accepts, policy: Policy, m: Member) {
    match m case Member(_, value) =>
      Meaning(accepts, policy, value).Ok? ==> Stands(policy, value, Meaning(accepts, policy, value).value)
  }

  lemma MemberAdded(accepts: Accepts, policy: Policy, members: seq<Member>, m: Member, r: seq<(string, Json)>)
    requires ObjectStands(policy, members, r) && ValueStands(accepts, policy, m) && MeaningMember(accepts, policy, m, r).Ok?
    ensures ObjectStands(policy, members + [m], MeaningMember(accepts, policy, m, r).value)
  {
    match m case Member(key, value) =>
      var e := (key.text, Meaning(accepts, policy, value).value);
      var p := Position(BY_TEXT, r, key.text);
      PositionOfKey(r, key.text);
      assert MemberStands(policy, m, e);
      if p < |r| {
        KnownMember(policy, members, m, r, e, p);
      } else {
        NewMember(policy, members, m, r, e);
      }
  }

  lemma {:induction false} MembersMean(accepts: Accepts, policy: Policy, members: seq<Member>)
    requires forall i :: 0 <= i < |members| ==> ValueStands(accepts, policy, members[i])
    requires MeaningMembers(accepts, policy, members, []).Ok?
    ensures ObjectStands(policy, members, MeaningMembers(accepts, policy, members, []).value)
    decreases |members|
  {
    if members == [] {
      assert NamesOf(members) == [] && KeysOf([]) == [];
    } else {
      var init, last := members[..|members| - 1], members[|members| - 1];
      assert members == init + [last];
      MembersSnoc(accepts, policy, init, last, []);
      MembersMean(accepts, policy, init);
      MemberAdded(accepts, policy, init, last, MeaningMembers(accepts, policy, init, []).value);
    }
  }

  lemma ObjectIsStood(policy: Policy, members: seq<Member>, results: seq<(string, Json)>)
    ensures ObjectStands(policy, members, results) <==> Stands(policy, Object(members), JObject(results))
  {
  }

  lemma {:induction false} MeaningStands(accepts: Accepts, policy: Policy, doc: Doc)
    requires Meaning(accepts, policy, doc).Ok?
    ensures Stands(policy, doc, Meaning(accepts, policy, doc).value)
    decreases doc
  {
    match doc {
      case Array(items) => ItemsMean(accepts, policy, items);
      case Object(members) =>
        forall i | 0 <= i < |members| ensures ValueStands(accepts, policy, members[i]) {
          match members[i] case Member(_, value) =>
            if Meaning(accepts, policy, value).Ok? {
              MeaningStands(accepts, policy, value);
            }
        }
        MembersMean(accepts, policy, members);
        ObjectIsStood(policy, members, MeaningMembers(accepts, policy, members, []).value);
      case _ =>
    }
  }

  lemma {:induction false} ItemsMean(accepts: Accepts, policy: Policy, items: seq<Doc>)
    requires MeaningItems(accepts, policy, items).Ok?
    ensures var r := MeaningItems(accepts, policy, items).value;
            |r| == |items| && forall i :: 0 <= i < |items| ==> Stands(policy, items[i], r[i])
    decreases items
  {
    if items != [] {
      MeaningStands(accepts, policy, items[0]);
      ItemsMean(accepts, policy, items[1..]);
      var r, rest := MeaningItems(accepts, policy, items).value, MeaningItems(accepts, policy, items[1..]).value;
      forall i | 0 <= i < |items| ensures Stands(policy, items[i], r[i]) {
        assert i > 0 ==> items[i] == items[1..][i - 1] && r[i] == rest[i - 1];
      }
    }
  }

  // ----- and a document stands for one result only -----

  lemma BeforeOneWay(names: seq<string>, a: string, b: string)
    requires ComesBefore(names, a, b)
    ensures !ComesBefore(names, b, a)
  {
    var n :| 0 <= n <= |names| && a in names[..n] && b !in names[..n];
    forall m | 0 <= m <= |names| && b in names[..m] ensures a in names[..m] {
      assert m > n;
      assert names[..n] == names[..m][..n];
    }
  }

  /** The keys from `k` on, in two enumerations that agree before `k`. */
  lemma {:induction false} OneOrder(names: seq<string>, a: seq<string>, b: seq<string>, k: nat)
    requires InOrder(names, a) && InOrder(names, b) && k <= |a| && k <= |b| && a[..k] == b[..k]
    ensures a == b
    decreases |a| - k
  {
    assert a[..|a|] == a && b[..|b|] == b;
    if k == |a| && k < |b| {
      OrderedNotEarlier(names, b, k);
      assert false;
    } else if k < |a| && k == |b| {
      OrderedNotEarlier(names, a, k);
      assert false;
    } else if k < |a| {
      SameNext(names, a, b, k);
      assert a[..k + 1] == a[..k] + [a[k]] && b[..k + 1] == b[..k] + [b[k]];
      OneOrder(names, a, b, k + 1);
    }
  }

  lemma OrderedNotEarlier(names: seq<string>, keys: seq<string>, k: nat)
    requires InOrder(names, keys) && k < |keys|
    ensures keys[k] !in keys[..k]
  {
    forall j | 0 <= j < k ensures keys[j] != keys[k] {
      DistinctInOrder(names, keys, j, k);
    }
  }

  lemma SameNext(names: seq<string>, a: seq<string>, b: seq<string>, k: nat)
    requires InOrder(names, a) && InOrder(names, b) && k < |a| && k < |b| && a[..k] == b[..k]
    ensures a[k] == b[k]
  {
    OrderedNotEarlier(names, a, k);
    OrderedNotEarlier(names, b, k);
    assert a[k] in a && b[k] in b;
    var i :| 0 <= i < |b| && b[i] == a[k];
    var j :| 0 <= j < |a| && a[j] == b[k];
    assert i >= k && j >= k;
    if a[k] != b[k] {
      assert ComesBefore(names, b[k], b[i]) && ComesBefore(names, a[k], a[j]);
      BeforeOneWay(names, a[k], b[k]);
      assert false;
    }
  }

  lemma KeptOnce(policy: Policy, names: seq<string>, i: nat, j: nat)
    requires KeptAt(policy, names, i) && KeptAt(policy, names, j) && names[i] == names[j]
    ensures i == j
  {
    if i != j {
      assert false;
    }
  }

  /** So the relation leaves nothing open. */
  lemma {:induction false} StandsForOne(policy: Policy, doc: Doc, a: Json, b: Json)
    requires Stands(policy, doc, a) && Stands(policy, doc, b)
    ensures a == b
    decreases doc
  {
    match doc {
      case Array(items) =>
        forall i | 0 <= i < |items| ensures a.items[i] == b.items[i] {
          StandsForOne(policy, items[i], a.items[i], b.items[i]);
        }
        assert a.items == b.items;
      case Object(members) => ObjectForOne(policy, members, a.members, b.members);
      case _ =>
    }
  }

  lemma {:induction false} ObjectForOne(policy: Policy, members: seq<Member>, a: seq<(string, Json)>, b: seq<(string, Json)>)
    requires Stands(policy, Object(members), JObject(a)) && Stands(policy, Object(members), JObject(b))
    ensures a == b
    decreases members
  {
    ObjectIsStood(policy, members, a);
    ObjectIsStood(policy, members, b);
    OneOrder(NamesOf(members), KeysOf(a), KeysOf(b), 0);
    assert |a| == |KeysOf(a)| && |b| == |KeysOf(b)|;
    forall k | 0 <= k < |a| ensures a[k] == b[k] {
      assert KeysOf(a)[k] == a[k].0 && KeysOf(b)[k] == b[k].0;
      assert EntryStands(policy, members, a[k]) && EntryStands(policy, members, b[k]);
      var i :| 0 <= i < |members| && KeptAt(policy, NamesOf(members), i) && MemberStands(policy, members[i], a[k]);
      var j :| 0 <= j < |members| && KeptAt(policy, NamesOf(members), j) && MemberStands(policy, members[j], b[k]);
      KeptOnce(policy, NamesOf(members), i, j);
      MemberForOne(policy, members[i], a[k], b[k]);
    }
  }

  lemma {:induction false} MemberForOne(policy: Policy, m: Member, a: (string, Json), b: (string, Json))
    requires MemberStands(policy, m, a) && MemberStands(policy, m, b)
    ensures a == b
    decreases m
  {
    match m case Member(_, value) => StandsForOne(policy, value, a.1, b.1);
  }

  /** What a parse returns is the one result that the document of the text stands for. */
  lemma ParsedStands(accepts: Accepts, policy: Policy, text: string, doc: Doc, result: Json)
    requires Denotes(text, doc) && Parse(accepts, policy, text, doc).Ok?
    ensures Parse(accepts, policy, text, doc).value == result <==> Stands(policy, doc, result)
  {
    ParsingGivesTheMeaning(accepts, policy, text, doc);
    MeaningStands(accepts, policy, doc);
    if Stands(policy, doc, result) {
      StandsForOne(policy, doc, result, Meaning(accepts, policy, doc).value);
    }
  }
}
