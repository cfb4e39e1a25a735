/** The table of sticky lease handles: which run may take over the sandbox a session parked last.
    The functions describe one synchronous call on an unbounded table; StickyLeases carries them out on an
    insertion-ordered table that drops its oldest entry when it grows past its limit. */
module Sticky {
  import opened Wrappers

  /** A blank entry (no handle) is the placeholder of a run that has claimed the key and kept nothing yet. */
  datatype Entry<H> = Entry(busyRun: Option<nat>, handle: Option<H>, expiresAt: int)
  datatype Claimed<H> = Claimed(owner: bool, handle: Option<H>)
  type Table<H> = map<string, Entry<H>>

  function KeyOf(username: string, sessionKey: string): string {
    username + ['\0'] + sessionKey
  }

  predicate HeldByOther<H>(t: Table<H>, key: string, run: nat) {
    key in t && t[key].busyRun.Some? && t[key].busyRun.value != run
  }

  predicate Stale<H>(t: Table<H>, key: string, now: int) {
    key in t && t[key].expiresAt != 0 && t[key].expiresAt <= now
  }

  function Claim<H>(t: Table<H>, key: string, run: nat, now: int): (Table<H>, Claimed<H>) {
    if HeldByOther(t, key, run) then (t, Claimed(false, None))
    else if Stale(t, key, now) then (t - {key}, Claimed(true, None))
    else if key !in t then (t[key := Entry(Some(run), None, 0)], Claimed(true, None))
    else (t[key := t[key].(busyRun := Some(run))], Claimed(true, t[key].handle))
  }

  /** Writing needs the claim to be in hand now. */
  predicate Holds<H>(t: Table<H>, key: string, run: nat) {
    key in t && t[key].busyRun == Some(run)
  }

  function Keep<H>(t: Table<H>, key: string, run: nat, handle: H, expiresAt: int): Table<H> {
    if Holds(t, key, run) then t[key := Entry(None, Some(handle), expiresAt)] else t
  }

  function Drop<H>(t: Table<H>, key: string, run: nat): Table<H> {
    if Holds(t, key, run) then t - {key} else t
  }

  function Forget<H>(t: Table<H>, key: string, run: nat): Table<H> {
    if Holds(t, key, run) then t[key := Entry(Some(run), None, 0)] else t
  }

  /** Usernames never contain NUL, so no two (user, session) pairs share a key. */
  lemma KeysDoNotCollide(u1: string, s1: string, u2: string, s2: string)
    requires '\0' !in u1 && '\0' !in u2
    ensures KeyOf(u1, s1) == KeyOf(u2, s2) <==> u1 == u2 && s1 == s2
  {
    var k1, k2 := KeyOf(u1, s1), KeyOf(u2, s2);
    assert k1[|u1|] == '\0' && k2[|u2|] == '\0';
    assert k1[..|u1|] == u1 && k1[|u1| + 1..] == s1;
    assert k2[..|u2|] == u2 && k2[|u2| + 1..] == s2;
    assert |u1| < |u2| ==> k2[|u1|] == u2[|u1|] && u2[|u1|] in u2;
    assert |u2| < |u1| ==> k1[|u2|] == u1[|u2|] && u1[|u2|] in u1;
  }

  /** The calls of a run on the table. */
  datatype Call<H> =
    | Claiming(key: string, run: nat, now: int)
    | Keeping(key: string, run: nat, handle: H, expiresAt: int)
    | Dropping(key: string, run: nat)
    | Forgetting(key: string, run: nat)

  function After<H>(t: Table<H>, c: Call<H>): Table<H> {
    match c
    case Claiming(key, run, now) => Claim(t, key, run, now).0
    case Keeping(key, run, handle, expiresAt) => Keep(t, key, run, handle, expiresAt)
    case Dropping(key, run) => Drop(t, key, run)
    case Forgetting(key, run) => Forget(t, key, run)
  }

  function AfterAll<H>(t: Table<H>, calls: seq<Call<H>>): Table<H>
    decreases |calls|
  {
    if calls == [] then t else AfterAll(After(t, calls[0]), calls[1..])
  }

  /** A claimed key is out of reach for every other run, whatever calls they make on it or on other keys, until
      the claimant itself calls: the entry stays as it is, and every other claim comes back empty. */
  lemma {:induction false} ClaimLocksOthersOut<H>(
      t: Table<H>, key: string, run: nat, calls: seq<Call<H>>, other: nat, now: int)
    requires Holds(t, key, run) && other != run && forall c | c in calls :: c.run != run || c.key != key
    ensures var locked := AfterAll(t, calls);
            && Holds(locked, key, run) && locked[key] == t[key]
            && Claim(locked, key, other, now) == (locked, Claimed(false, None))
    decreases |calls|
  {
    if calls == [] {
      assert HeldByOther(t, key, other);
    } else {
      assert calls[0] in calls && forall c | c in calls[1..] :: c in calls;
      OtherCall(t, key, run, calls[0]);
      ClaimLocksOthersOut(After(t, calls[0]), key, run, calls[1..], other, now);
    }
  }

  lemma OtherCall<H>(t: Table<H>, key: string, run: nat, c: Call<H>)
    requires Holds(t, key, run) && (c.run != run || c.key != key)
    ensures key in After(t, c) && After(t, c)[key] == t[key]
  {
    match c
    case Claiming(k, r, now) => assert k == key ==> HeldByOther(t, k, r);
    case _ =>
  }

  /** What a run keeps is what the next claim gets, as long as it has not expired; and from then on, through
      any calls of others, nobody else gets it until that run is done. */
  lemma KeptHandleIsClaimedOnce<H>(t: Table<H>, key: string, run: nat, handle: H, expiresAt: int, next: nat, now: int,
                                   calls: seq<Call<H>>, other: nat, later: int)
    requires Holds(t, key, run) && (expiresAt == 0 || now < expiresAt)
    requires other != next && forall c | c in calls :: c.run != next || c.key != key
    ensures var (locked, claimed) := Claim(Keep(t, key, run, handle, expiresAt), key, next, now);
            && claimed == Claimed(true, Some(handle)) && Holds(locked, key, next)
            && Claim(AfterAll(locked, calls), key, other, later) == (AfterAll(locked, calls), Claimed(false, None))
  {
    var (locked, claimed) := Claim(Keep(t, key, run, handle, expiresAt), key, next, now);
    ClaimLocksOthersOut(locked, key, next, calls, other, later);
  }

  /** Calls on other keys are no concern of this one. */
  lemma {:induction false} OtherKeysDoNotMatter<H>(t: Table<H>, key: string, calls: seq<Call<H>>)
    requires forall c | c in calls :: c.key != key
    ensures key in AfterAll(t, calls) <==> key in t
    ensures key in t ==> AfterAll(t, calls)[key] == t[key]
    decreases |calls|
  {
    if calls == [] {
    } else {
      assert calls[0] in calls && forall c | c in calls[1..] :: c in calls;
      OtherKeysDoNotMatter(After(t, calls[0]), key, calls[1..]);
    }
  }

  /** A run that drops its key frees it: whoever claims it next, after any calls on other keys, owns it, finds
      nothing there, and holds it. */
  lemma DroppedKeyIsFree<H>(t: Table<H>, key: string, run: nat, calls: seq<Call<H>>, next: nat, now: int)
    requires Holds(t, key, run) && forall c | c in calls :: c.key != key
    ensures var (claimed, result) := Claim(AfterAll(Drop(t, key, run), calls), key, next, now);
            result == Claimed(true, None) && Holds(claimed, key, next)
  {
    OtherKeysDoNotMatter(Drop(t, key, run), key, calls);
  }

  /** A run that forgets its handle keeps the claim, which does not expire: it may claim the key again and finds
      nothing there, and nobody else can. */
  lemma ForgottenKeyStaysClaimed<H>(t: Table<H>, key: string, run: nat, calls: seq<Call<H>>, other: nat, now: int)
    requires Holds(t, key, run) && other != run && forall c | c in calls :: c.run != run || c.key != key
    ensures var forgotten := AfterAll(Forget(t, key, run), calls);
            && Holds(forgotten, key, run) && Claim(forgotten, key, run, now) == (forgotten, Claimed(true, None))
            && Claim(forgotten, key, other, now) == (forgotten, Claimed(false, None))
  {
    ClaimLocksOthersOut(Forget(t, key, run), key, run, calls, other, now);
    var forgotten := AfterAll(Forget(t, key, run), calls);
    assert forgotten[key := forgotten[key].(busyRun := Some(run))] == forgotten;
  }

  /** What has expired is not handed out: the next run owns the key all the same, and leaves nothing behind. */
  lemma ExpiredHandleIsGone<H>(
      t: Table<H>, key: string, run: nat, handle: H, expiresAt: int, calls: seq<Call<H>>, next: nat, now: int)
    requires Holds(t, key, run) && expiresAt != 0 && forall c | c in calls :: c.key != key
    ensures var (claimed, result) := Claim(AfterAll(Keep(t, key, run, handle, expiresAt), calls), key, next, now);
            if expiresAt <= now then result == Claimed(true, None) && key !in claimed
            else result == Claimed(true, Some(handle)) && Holds(claimed, key, next)
  {
    OtherKeysDoNotMatter(Keep(t, key, run, handle, expiresAt), key, calls);
  }

  function WithoutKey(keys: seq<string>, key: string): seq<string> {
    if keys == [] then [] else (if keys[0] == key then [] else [keys[0]]) + WithoutKey(keys[1..], key)
  }

  lemma {:induction false} WithoutAbsentKey(keys: seq<string>, key: string)
    requires key !in keys
    ensures WithoutKey(keys, key) == keys
  {
    if keys == [] {
    } else {
      WithoutAbsentKey(keys[1..], key);
    }
  }

  ghost predicate OnceEach(keys: seq<string>) { forall i, j | 0 <= i < j < |keys| :: keys[i] != keys[j] }

  lemma NewestJoins(keys: seq<string>, key: string)
    requires OnceEach(keys)
    ensures key !in keys ==> OnceEach(keys + [key])
    ensures forall k :: k in keys + [key] <==> k in keys || k == key
  {
  }

  lemma OldestGone(keys: seq<string>)
    requires OnceEach(keys) && keys != []
    ensures OnceEach(keys[1..]) && forall k :: k in keys[1..] <==> k in keys && k != keys[0]
  {
    assert keys == [keys[0]] + keys[1..];
  }

  /** A key that is there once is cut out, and the others stay in their order. */
  lemma {:induction false} KeyCutOut(keys: seq<string>, i: nat)
    requires i < |keys| && OnceEach(keys)
    ensures WithoutKey(keys, keys[i]) == keys[..i] + keys[i + 1..]
  {
    if i == 0 {
      WithoutAbsentKey(keys[1..], keys[0]);
    } else {
      KeyCutOut(keys[1..], i - 1);
    }
  }

  lemma FirstIsApart(key: string, keys: seq<string>)
    requires OnceEach(keys) && key !in keys
    ensures OnceEach([key] + keys) && OnceEach([] + keys)
  {
    assert [] + keys == keys;
  }

  lemma {:induction false} WithoutKeyFacts(keys: seq<string>, key: string)
    requires OnceEach(keys)
    ensures OnceEach(WithoutKey(keys, key)) && forall k :: k in WithoutKey(keys, key) <==> k in keys && k != key
  {
    if keys == [] {
    } else {
      OldestGone(keys);
      WithoutKeyFacts(keys[1..], key);
      FirstIsApart(keys[0], WithoutKey(keys[1..], key));
    }
  }

  class StickyLeases<H> {
    const maxEntries: nat
    var order: seq<string>
    var entries: Table<H>

    ghost predicate Valid()
      reads this
    {
      && OnceEach(order) && (forall k :: k in order <==> k in entries)
      && |order| <= maxEntries
    }

    constructor (maxEntries: nat)
      ensures Valid() && entries == map[] && this.maxEntries == maxEntries
    {
      this.maxEntries := maxEntries;
      order, entries := [], map[];
    }

    /** The key that has to go when this one is added: the oldest, and only from a full table. */
    ghost function Evicted(key: string): set<string>
      reads this
    {
      if key in entries || |order| < maxEntries then {} else {(order + [key])[0]}
    }

    /** The keys in the order in which they came, once this one is added and has made room for itself. */
    ghost function OrderWith(key: string): seq<string>
      reads this
    {
      var grown := if key in entries then order else order + [key];
      if |grown| > maxEntries then grown[1..] else grown
    }

    /** Sets an entry as a Map does, then drops the oldest key if the table has grown past its limit. */
    method Store(key: string, entry: Entry<H>)
      requires Valid()
      modifies this
      ensures Valid()
      ensures entries == old(entries)[key := entry] - old(Evicted(key)) && order == old(OrderWith(key))
    {
      hide WithoutKey;
      NewestJoins(order, key);
      if key !in entries { order := order + [key]; }
      entries := entries[key := entry];
      if |order| > maxEntries {
        OldestGone(order);
        entries := entries - {order[0]};
        order := order[1..];
      }
    }

    method Remove(key: string)
      requires Valid() && key in entries
      modifies this
      ensures Valid() && entries == old(entries) - {key} && order == WithoutKey(old(order), key)
    {
      hide OnceEach, WithoutKey;
      var i := 0;
      while order[i] != key
        invariant 0 <= i < |order| && key in order[i..]
        decreases |order| - i
      {
        assert order[i..] == [order[i]] + order[i + 1..];
        i := i + 1;
      }
      KeyCutOut(order, i);
      WithoutKeyFacts(order, key);
      order := order[..i] + order[i + 1..];
      entries := entries - {key};
    }

    /** A claim does what Claim says, except that adding a key to a full table costs it its oldest key. */
    method ClaimKey(key: string, run: nat, now: int) returns (claimed: Claimed<H>)
      requires Valid()
      modifies this
      ensures Valid() && claimed == Claim(old(entries), key, run, now).1
      ensures entries == Claim(old(entries), key, run, now).0 - old(Evicted(key))
      ensures order == if old(HeldByOther(entries, key, run)) then old(order)
                       else if old(Stale(entries, key, now)) then WithoutKey(old(order), key)
                       else old(OrderWith(key))
    {
      if key in entries && entries[key].busyRun.Some? && entries[key].busyRun.value != run {
        claimed := Claimed(false, None);
      } else if key in entries && entries[key].expiresAt != 0 && entries[key].expiresAt <= now {
        Remove(key);
        claimed := Claimed(true, None);
      } else if key !in entries {
        Store(key, Entry(Some(run), None, 0));
        claimed := Claimed(true, None);
      } else {
        claimed := Claimed(true, entries[key].handle);
        entries := entries[key := entries[key].(busyRun := Some(run))];
      }
    }

    method KeepHandle(key: string, run: nat, handle: H, expiresAt: int) returns (ok: bool)
      requires Valid()
      modifies this
      ensures Valid() && entries == Keep(old(entries), key, run, handle, expiresAt) && order == old(order)
      ensures ok <==> old(Holds(entries, key, run))
    {
      ok := key in entries && entries[key].busyRun == Some(run);
      if ok { Store(key, Entry(None, Some(handle), expiresAt)); }
    }

    method DropKey(key: string, run: nat) returns (ok: bool)
      requires Valid()
      modifies this
      ensures Valid() && entries == Drop(old(entries), key, run)
      ensures order == if old(Holds(entries, key, run)) then WithoutKey(old(order), key) else old(order)
      ensures ok <==> old(Holds(entries, key, run))
    {
      ok := key in entries && entries[key].busyRun == Some(run);
      if ok { Remove(key); }
    }

    method ForgetHandle(key: string, run: nat) returns (ok: bool)
      requires Valid()
      modifies this
      ensures Valid() && entries == Forget(old(entries), key, run) && order == old(order)
      ensures ok <==> old(Holds(entries, key, run))
    {
      ok := key in entries && entries[key].busyRun == Some(run);
      if ok { Store(key, Entry(Some(run), None, 0)); }
    }
  }
}
