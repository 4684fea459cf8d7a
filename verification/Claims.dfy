/**
 SETNX with an expiry, used to claim a key at most once: a claim is refused when
 its deadline has passed or the key is still alive, and otherwise makes the key
 live until the deadline. The clock read, the ttl and the SETNX are one step.
 */
module Claims {
  import opened Text

  /** Each live key with the instant at which it expires. */
  type Keys = map<RedisKey, int>

  predicate Live(keys: Keys, key: RedisKey, now: int) {
    key in keys && now < keys[key]
  }

  /** One claim, attempted at `now` for a key that should last until `deadline`. */
  function Claim(keys: Keys, key: RedisKey, deadline: int, now: int): (bool, Keys) {
    var ttl := deadline - now;
    if ttl <= 0 then (false, keys)
    else if Live(keys, key, now) then (false, keys)
    else (true, keys[key := now + ttl])
  }

  /** A claim that was granted. */
  datatype Grant = Grant(key: RedisKey, deadline: int, at: int)

  /** The claimed keys, the clock, and every claim granted so far, oldest first. */
  datatype Store = Store(keys: Keys, now: int, grants: seq<Grant>)

  function Attempt(s: Store, key: RedisKey, deadline: int): (bool, Store) {
    var (ok, keys) := Claim(s.keys, key, deadline, s.now);
    (ok, if ok then Store(keys, s.now, s.grants + [Grant(key, deadline, s.now)]) else s)
  }

  function Advance(s: Store, dt: nat): Store {
    s.(now := s.now + dt)
  }

  ghost predicate Empty(s: Store) {
    s.keys == map[] && s.grants == []
  }

  ghost predicate Inv(s: Store) {
    && (forall i :: 0 <= i < |s.grants| ==> GrantStored(s, s.grants[i]))
    && (forall k :: k in s.keys ==> KeyBacked(s, k))
    && (forall i, j :: 0 <= i < j < |s.grants| && s.grants[i].key == s.grants[j].key ==>
        s.grants[i].deadline <= s.grants[j].at)
  }

  ghost predicate GrantStored(s: Store, g: Grant) {
    g.at <= s.now && g.at < g.deadline && g.key in s.keys && g.deadline <= s.keys[g.key]
  }

  ghost predicate KeyBacked(s: Store, k: RedisKey)
    requires k in s.keys
  {
    exists i :: 0 <= i < |s.grants| && s.grants[i].key == k && s.grants[i].deadline == s.keys[k]
  }

  lemma EmptyInv(s: Store)
    requires Empty(s)
    ensures Inv(s)
  {
  }

  lemma AdvanceInv(s: Store, dt: nat)
    requires Inv(s)
    ensures Inv(Advance(s, dt))
  {
    var t := Advance(s, dt);
    forall i | 0 <= i < |t.grants|
      ensures GrantStored(t, t.grants[i])
    {
      assert GrantStored(s, s.grants[i]);
    }
    forall k | k in t.keys
      ensures KeyBacked(t, k)
    {
      assert KeyBacked(s, k);
    }
  }

  /**
   A claim before its deadline is refused exactly when an earlier grant of the
   key has not expired; one at or after the deadline is always refused.
   */
  lemma AttemptIff(s: Store, key: RedisKey, deadline: int)
    requires Inv(s)
    ensures Attempt(s, key, deadline).0 <==>
            s.now < deadline && forall g :: g in s.grants && g.key == key ==> g.deadline <= s.now
  {
    if Live(s.keys, key, s.now) {
      assert KeyBacked(s, key);
      var i :| 0 <= i < |s.grants| && s.grants[i].key == key && s.grants[i].deadline == s.keys[key];
      assert s.grants[i] in s.grants;
    } else {
      forall g | g in s.grants && g.key == key
        ensures g.deadline <= s.now
      {
        var i :| 0 <= i < |s.grants| && s.grants[i] == g;
        assert GrantStored(s, s.grants[i]);
      }
    }
  }

  lemma AttemptInv(s: Store, key: RedisKey, deadline: int)
    requires Inv(s)
    ensures Inv(Attempt(s, key, deadline).1)
  {
    AttemptIff(s, key, deadline);
    var (ok, t) := Attempt(s, key, deadline);
    if ok {
      NewGrantStored(s, key, deadline);
      NewGrantBacked(s, key, deadline);
      NewGrantLater(s, key, deadline);
    }
  }

  lemma NewGrantStored(s: Store, key: RedisKey, deadline: int)
    requires Inv(s) && Attempt(s, key, deadline).0
    ensures var t := Attempt(s, key, deadline).1; forall i :: 0 <= i < |t.grants| ==> GrantStored(t, t.grants[i])
  {
    AttemptIff(s, key, deadline);
    var t := Attempt(s, key, deadline).1;
    forall i | 0 <= i < |t.grants|
      ensures GrantStored(t, t.grants[i])
    {
      if i < |s.grants| {
        assert GrantStored(s, s.grants[i]);
        assert s.grants[i] in s.grants;
      }
    }
  }

  lemma NewGrantBacked(s: Store, key: RedisKey, deadline: int)
    requires Inv(s) && Attempt(s, key, deadline).0
    ensures var t := Attempt(s, key, deadline).1; forall k :: k in t.keys ==> KeyBacked(t, k)
  {
    var t := Attempt(s, key, deadline).1;
    forall k | k in t.keys
      ensures KeyBacked(t, k)
    {
      if k == key {
        assert t.grants[|s.grants|].key == k;
      } else {
        assert KeyBacked(s, k);
        var i :| 0 <= i < |s.grants| && s.grants[i].key == k && s.grants[i].deadline == s.keys[k];
        assert t.grants[i] == s.grants[i];
      }
    }
  }

  lemma NewGrantLater(s: Store, key: RedisKey, deadline: int)
    requires Inv(s) && Attempt(s, key, deadline).0
    ensures var t := Attempt(s, key, deadline).1;
            forall i, j :: 0 <= i < j < |t.grants| && t.grants[i].key == t.grants[j].key ==>
                t.grants[i].deadline <= t.grants[j].at
  {
    AttemptIff(s, key, deadline);
    var t := Attempt(s, key, deadline).1;
    forall i, j | 0 <= i < j < |t.grants| && t.grants[i].key == t.grants[j].key
      ensures t.grants[i].deadline <= t.grants[j].at
    {
      assert t.grants[i] == s.grants[i] && s.grants[i] in s.grants;
      if j < |s.grants| {
        assert t.grants[j] == s.grants[j];
      }
    }
  }

  /** No key is granted twice for the same deadline, at whatever times it is tried. */
  lemma GrantedOnce(s: Store, i: nat, j: nat)
    requires Inv(s) && i < j < |s.grants|
    requires s.grants[i].key == s.grants[j].key
    ensures s.grants[i].deadline <= s.grants[j].at < s.grants[j].deadline
  {
    assert GrantStored(s, s.grants[j]);
  }

  /** The key has been granted for this very deadline. */
  ghost predicate Granted(s: Store, key: RedisKey, deadline: int) {
    exists g :: g in s.grants && g.key == key && g.deadline == deadline
  }

  /** Any grant of the key that is still alive was made for this deadline. */
  ghost predicate OnlyFor(s: Store, key: RedisKey, deadline: int) {
    forall g :: g in s.grants && g.key == key && s.now < g.deadline ==> g.deadline == deadline
  }

  ghost predicate Extends(s: Store, t: Store) {
    s.grants <= t.grants && s.now <= t.now
  }

  lemma ExtendsTransitive(s: Store, t: Store, u: Store)
    requires Extends(s, t) && Extends(t, u)
    ensures Extends(s, u)
  {
  }

  lemma GrantedExtends(s: Store, t: Store, key: RedisKey, deadline: int)
    requires s.grants <= t.grants && Granted(s, key, deadline)
    ensures Granted(t, key, deadline)
  {
    var g :| g in s.grants && g.key == key && g.deadline == deadline;
    assert g in t.grants;
  }

  /** Before the deadline, the first attempt is granted and no other. */
  lemma AttemptGrants(s: Store, key: RedisKey, deadline: int)
    requires Inv(s) && OnlyFor(s, key, deadline) && s.now < deadline
    ensures Attempt(s, key, deadline).0 <==> !Granted(s, key, deadline)
    ensures Granted(Attempt(s, key, deadline).1, key, deadline)
  {
    AttemptIff(s, key, deadline);
    var (ok, t) := Attempt(s, key, deadline);
    if ok {
      assert Grant(key, deadline, s.now) in t.grants;
    }
  }

  lemma AttemptKeepsOnly(s: Store, key: RedisKey, deadline: int, other: RedisKey, otherDeadline: int)
    requires OnlyFor(s, other, otherDeadline)
    requires key == other ==> deadline == otherDeadline
    ensures OnlyFor(Attempt(s, key, deadline).1, other, otherDeadline)
  {
  }
}
