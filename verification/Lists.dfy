/**
  The lists of src/lib/list.c as sequences: what a walk from head to tail sees.
 */
module Lists {
  predicate NoDup(s: seq<nat>) {
    forall i, j :: 0 <= i < j < |s| ==> s[i] != s[j]
  }

  // list_remove: the node leaves the list, the others keep their order.
  function Without(s: seq<nat>, x: nat): (r: seq<nat>)
    ensures x !in s ==> r == s
    ensures forall y :: y != x ==> (y in r <==> y in s)
  {
    if s == [] then [] else if s[0] == x then s[1..] else [s[0]] + Without(s[1..], x)
  }

  lemma {:induction false} WithoutDrops(s: seq<nat>, x: nat)
    requires NoDup(s)
    ensures NoDup(Without(s, x)) && x !in Without(s, x)
  {
    if s != [] {
      WithoutDrops(s[1..], x);
      if s[0] != x {
        var r := Without(s[1..], x);
        forall j | 0 <= j < |r| ensures r[j] != s[0] {
          assert r[j] in r;
        }
      }
    }
  }

  predicate Ascending(keys: seq<int>) {
    forall i, j :: 0 <= i < j < |keys| ==> keys[i] <= keys[j]
  }

  // list_insert_sort puts the node in front of the first one whose key is not smaller.
  function Place(keys: seq<int>, key: int): (p: nat)
    ensures p <= |keys|
    ensures forall i :: 0 <= i < p ==> keys[i] < key
    ensures p < |keys| ==> keys[p] >= key
  {
    if keys == [] || keys[0] >= key then 0 else 1 + Place(keys[1..], key)
  }

  function Insert<T>(s: seq<T>, p: nat, x: T): (r: seq<T>)
    requires p <= |s|
  {
    s[..p] + [x] + s[p..]
  }

  lemma InsertIs<T>(s: seq<T>, p: nat, x: T)
    requires p <= |s|
    ensures var r := Insert(s, p, x);
      |r| == |s| + 1 && forall j: nat :: j <= |s| ==> r[j] == if j < p then s[j] else if j == p then x else s[j - 1]
  {
  }

  // Inserting at its place keeps a sorted list sorted.
  lemma InsertAscending(keys: seq<int>, key: int)
    requires Ascending(keys)
    ensures Ascending(Insert(keys, Place(keys, key), key))
  {
  }

  // list_remove of the node at position p.
  function RemoveAt<T>(s: seq<T>, p: nat): (r: seq<T>)
    requires p < |s|
  {
    s[..p] + s[p + 1..]
  }

  // On a list without repetitions removing by position and removing by name are the same.
  lemma {:induction false} WithoutIsRemoveAt(s: seq<nat>, p: nat)
    requires NoDup(s) && p < |s|
    ensures Without(s, s[p]) == RemoveAt(s, p)
  {
    if p > 0 {
      WithoutIsRemoveAt(s[1..], p - 1);
      assert s[0] != s[p] && s[1..][p - 1] == s[p];
      assert s[..p] == [s[0]] + s[1..][..p - 1] && s[p + 1..] == s[1..][p..];
    }
  }

  lemma InsertHas(s: seq<nat>, p: nat, x: nat)
    requires p <= |s|
    ensures forall y :: y in Insert(s, p, x) <==> y == x || y in s
    ensures NoDup(s) && x !in s ==> NoDup(Insert(s, p, x))
  {
    var r := Insert(s, p, x);
    forall y | y in s ensures y in r {
      var i :| 0 <= i < |s| && s[i] == y;
      assert r[if i < p then i else i + 1] == y;
    }
    assert r[p] == x;
  }

  // ---------- lists in order of arrival ----------

  predicate Sooner(since: map<nat, nat>, a: nat, b: nat) {
    a in since && b in since && since[a] < since[b]
  }

  // Everyone in the list came before `now`.
  predicate Came(s: seq<nat>, since: map<nat, nat>, now: nat) {
    forall x :: x in s ==> x in since && since[x] < now
  }

  // Whoever stands further front came sooner.
  predicate InTurn(s: seq<nat>, since: map<nat, nat>) {
    forall i, j :: 0 <= i < j < |s| ==> Sooner(since, s[i], s[j])
  }

  predicate Queued(s: seq<nat>, since: map<nat, nat>, now: nat) {
    Came(s, since, now) && InTurn(s, since)
  }

  lemma {:induction false} WithoutInTurn(s: seq<nat>, x: nat, since: map<nat, nat>)
    requires InTurn(s, since)
    ensures InTurn(Without(s, x), since) && forall y :: y in Without(s, x) ==> y in s
  {
    hide Sooner;
    if s != [] {
      var rest := s[1..];
      forall i, j | 0 <= i < j < |rest| ensures Sooner(since, rest[i], rest[j]) {
        assert rest[i] == s[i + 1] && rest[j] == s[j + 1];
      }
      if s[0] != x {
        WithoutInTurn(rest, x, since);
        var r := Without(rest, x);
        forall j | 0 <= j < |r| ensures Sooner(since, s[0], r[j]) {
          assert r[j] in r;
          var i :| 0 <= i < |rest| && rest[i] == r[j];
          assert s[i + 1] == r[j];
        }
        FrontInTurn(s[0], r, since);
      }
    }
  }

  lemma FrontInTurn(x: nat, r: seq<nat>, since: map<nat, nat>)
    requires InTurn(r, since) && forall j :: 0 <= j < |r| ==> Sooner(since, x, r[j])
    ensures InTurn([x] + r, since)
  {
    hide Sooner;
    var all := [x] + r;
    forall i, j | 0 <= i < j < |all| ensures Sooner(since, all[i], all[j]) {
      assert all[j] == r[j - 1] && (i > 0 ==> all[i] == r[i - 1]);
    }
  }

  // Whoever leaves, the others stay in order.
  lemma WithoutQueued(s: seq<nat>, x: nat, since: map<nat, nat>, now: nat)
    requires Queued(s, since, now)
    ensures Queued(Without(s, x), since, now) && forall y :: y in Without(s, x) ==> y in s
  {
    WithoutInTurn(s, x, since);
    hide Without, InTurn;
  }

  // A newcomer goes to the back.
  lemma PushQueued(s: seq<nat>, x: nat, since: map<nat, nat>, now: nat)
    requires Queued(s, since, now) && x !in s
    ensures Queued(s + [x], since[x := now], now + 1)
  {
    var r, more := s + [x], since[x := now];
    forall i, j | 0 <= i < j < |r| ensures Sooner(more, r[i], r[j]) {
      assert r[i] in s && (j < |s| ==> Sooner(since, s[i], s[j]));
    }
  }

  // Nothing changes for a list when somebody comes elsewhere.
  lemma OtherQueued(s: seq<nat>, x: nat, since: map<nat, nat>, now: nat)
    requires Queued(s, since, now) && x !in s
    ensures Queued(s, since, now + 1) && Queued(s, since[x := now], now + 1)
  {
    forall i, j | 0 <= i < j < |s| ensures Sooner(since[x := now], s[i], s[j]) {
      assert s[i] in s && s[j] in s && Sooner(since, s[i], s[j]);
    }
  }
}
