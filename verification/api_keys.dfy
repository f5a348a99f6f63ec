/** The API-key manager: creation under a ten-keys-per-user quota, owner
    listing newest first, owner-only revocation and prefix-gated validation.

    The store is the sequence of key rows in insertion order. SHA-256 is the
    function parameter `hash`, the 32 random bytes arrive already hex-encoded
    as `randomHex`, and the database's fresh row id as `newId`. */
module ApiKeys {
  import opened Common
  import opened Text

  const KEY_PREFIX: string := "ovo_k_"
  const KEY_BYTES: nat := 32
  /** How many leading characters of a raw key are kept for display. */
  const DISPLAY_PREFIX_LENGTH: nat := 12
  const MAX_KEYS_PER_USER: nat := 10

  const QUOTA_EXCEEDED := AppError("Maximum of 10 API keys per user", 400)
  const KEY_NOT_FOUND := AppError("API key not found", 404)

  /** A persisted key: only the hash and the display prefix of the secret. */
  datatype ApiKey = ApiKey(id: string, name: string, keyHash: string, keyPrefix: string,
                           userId: string, lastUsedAt: Option<int>, createdAt: int)

  /** The create response: the only place the raw key ever appears. */
  datatype CreatedKey = CreatedKey(id: string, name: string, keyPrefix: string, createdAt: int, key: string)

  /** A row of the list response. */
  datatype KeyView = KeyView(id: string, name: string, keyPrefix: string, lastUsedAt: Option<int>, createdAt: int)

  datatype Outcome<+T> = Outcome(store: seq<ApiKey>, result: Result<T>)

  predicate IsHex(s: string)
  {
    forall i :: 0 <= i < |s| ==> IsLowerHex(s[i])
  }

  /** The shape of `crypto.randomBytes(32).toString("hex")`. */
  predicate IsRandomPayload(randomHex: string)
  {
    |randomHex| == 2 * KEY_BYTES && IsHex(randomHex)
  }

  /** `generateRawKey`: the fixed prefix followed by 64 lower-case hex digits. */
  function GenerateRawKey(randomHex: string): (raw: string)
    requires IsRandomPayload(randomHex)
    ensures |raw| == 70
    ensures StartsWith(raw, KEY_PREFIX)
    ensures IsHex(raw[|KEY_PREFIX|..])
  {
    KEY_PREFIX + randomHex
  }

  /** The random part of a raw key. */
  function Payload(raw: string): string
    requires StartsWith(raw, KEY_PREFIX)
  {
    raw[|KEY_PREFIX|..]
  }

  /** Different random payloads give different keys: the payload is recovered
      from the key. */
  lemma PayloadRoundTrip(randomHex: string)
    requires IsRandomPayload(randomHex)
    ensures Payload(GenerateRawKey(randomHex)) == randomHex
  {
  }

  /** `getPrefix`: `rawKey.slice(0, 12)`, the whole string when shorter. */
  function GetPrefix(raw: string): (p: string)
    ensures StartsWith(raw, p)
    ensures |p| == if |raw| < DISPLAY_PREFIX_LENGTH then |raw| else DISPLAY_PREFIX_LENGTH
  {
    if |raw| < DISPLAY_PREFIX_LENGTH then raw else raw[..DISPLAY_PREFIX_LENGTH]
  }

  /** The display prefix of a generated key is twelve characters: the fixed
      "ovo_k_" followed by the first six hex digits of the payload. */
  lemma GeneratedPrefix(randomHex: string)
    requires IsRandomPayload(randomHex)
    ensures var raw := GenerateRawKey(randomHex);
            && |GetPrefix(raw)| == DISPLAY_PREFIX_LENGTH
            && StartsWith(GetPrefix(raw), KEY_PREFIX)
            && GetPrefix(raw) == KEY_PREFIX + randomHex[..6]
  {
  }

  /** The keys owned by `userId`, in store order. */
  function KeysOf(store: seq<ApiKey>, userId: string): (r: seq<ApiKey>)
    ensures |r| <= |store|
    ensures forall k :: k in r <==> k in store && k.userId == userId
  {
    if |store| == 0 then []
    else
      var last := store[|store| - 1];
      KeysOf(store[..|store| - 1], userId) + (if last.userId == userId then [last] else [])
  }

  function CountFor(store: seq<ApiKey>, userId: string): nat
  {
    |KeysOf(store, userId)|
  }

  predicate HashUnused(store: seq<ApiKey>, h: string)
  {
    forall i :: 0 <= i < |store| ==> store[i].keyHash != h
  }

  predicate IdUnused(store: seq<ApiKey>, id: string)
  {
    forall i :: 0 <= i < |store| ==> store[i].id != id
  }

  /** The unique constraints on the id and keyHash columns. */
  predicate Valid(store: seq<ApiKey>)
  {
    forall i, j :: 0 <= i < j < |store| ==>
      store[i].id != store[j].id && store[i].keyHash != store[j].keyHash
  }

  /** Every user holds at most ten keys. */
  ghost predicate WithinQuota(store: seq<ApiKey>)
  {
    forall u :: CountFor(store, u) <= MAX_KEYS_PER_USER
  }

  /** `createApiKey`. The raw key is generated from the random payload, and
      only its hash and display prefix are stored. The fresh row id and an
      unused hash stand for the database's unique constraints. */
  function Create(store: seq<ApiKey>, userId: string, name: string, randomHex: string,
                  hash: string -> string, newId: string, now: int): (o: Outcome<CreatedKey>)
    requires IsRandomPayload(randomHex)
    requires IdUnused(store, newId)
    requires HashUnused(store, hash(GenerateRawKey(randomHex)))
    ensures CountFor(store, userId) >= MAX_KEYS_PER_USER ==> o == Outcome(store, Err(QUOTA_EXCEEDED))
    ensures CountFor(store, userId) < MAX_KEYS_PER_USER ==>
              && o.result.Ok?
              && o.result.value.key == GenerateRawKey(randomHex)
              && o.store == store + [ApiKey(newId, name, hash(o.result.value.key), GetPrefix(o.result.value.key),
                                            userId, None, now)]
  {
    if CountFor(store, userId) >= MAX_KEYS_PER_USER then Outcome(store, Err(QUOTA_EXCEEDED))
    else
      var raw := GenerateRawKey(randomHex);
      var row := ApiKey(newId, name, hash(raw), GetPrefix(raw), userId, None, now);
      Outcome(store + [row], Ok(CreatedKey(row.id, row.name, row.keyPrefix, row.createdAt, raw)))
  }

  function ViewOf(k: ApiKey): KeyView
  {
    KeyView(k.id, k.name, k.keyPrefix, k.lastUsedAt, k.createdAt)
  }

  function Views(keys: seq<ApiKey>): (r: seq<KeyView>)
    ensures |r| == |keys|
    ensures forall i :: 0 <= i < |keys| ==> r[i] == ViewOf(keys[i])
  {
    seq(|keys|, i requires 0 <= i < |keys| => ViewOf(keys[i]))
  }

  predicate NewestFirst(s: seq<KeyView>)
  {
    forall i, j :: 0 <= i < j < |s| ==> s[i].createdAt >= s[j].createdAt
  }

  /** No view in `s` is newer than `t`. */
  predicate AtMost(s: seq<KeyView>, t: int)
  {
    forall i :: 0 <= i < |s| ==> s[i].createdAt <= t
  }

  function Insert(v: KeyView, sorted: seq<KeyView>): (r: seq<KeyView>)
    requires NewestFirst(sorted)
    ensures NewestFirst(r)
    ensures multiset(r) == multiset(sorted) + multiset{v}
    ensures forall t :: AtMost(sorted, t) && v.createdAt <= t ==> AtMost(r, t)
  {
    if |sorted| == 0 then [v]
    else if v.createdAt >= sorted[0].createdAt then [v] + sorted
    else
      var head := sorted[0];
      assert sorted == [head] + sorted[1..];
      assert AtMost(sorted[1..], head.createdAt);
      var rest := Insert(v, sorted[1..]);
      PrependNewest(head, rest);
      PrependBound(v, head, sorted[1..], rest);
      [head] + rest
  }

  /** Putting back the head of a newest-first list keeps every bound the
      whole list and `v` respect. */
  lemma PrependBound(v: KeyView, head: KeyView, tail: seq<KeyView>, rest: seq<KeyView>)
    requires forall t :: AtMost(tail, t) && v.createdAt <= t ==> AtMost(rest, t)
    ensures forall t :: AtMost([head] + tail, t) && v.createdAt <= t ==> AtMost([head] + rest, t)
  {
    forall t | AtMost([head] + tail, t) && v.createdAt <= t
      ensures AtMost([head] + rest, t)
    {
      var whole := [head] + tail;
      assert whole[0] == head;
      assert forall j :: 0 <= j < |tail| ==> tail[j] == whole[j + 1];
      assert AtMost(tail, t);
      assert AtMost(rest, t);
      var r := [head] + rest;
      assert forall j :: 1 <= j < |r| ==> r[j] == rest[j - 1];
    }
  }

  /** A view no older than every view of a newest-first list can go first. */
  lemma PrependNewest(head: KeyView, rest: seq<KeyView>)
    requires NewestFirst(rest) && AtMost(rest, head.createdAt)
    ensures NewestFirst([head] + rest)
    ensures multiset([head] + rest) == multiset(rest) + multiset{head}
  {
    var r := [head] + rest;
    assert forall j :: 1 <= j < |r| ==> r[j] == rest[j - 1];
  }

  /** Orders key views by creation time, newest first. */
  function SortNewestFirst(s: seq<KeyView>): (r: seq<KeyView>)
    ensures NewestFirst(r)
    ensures multiset(r) == multiset(s)
  {
    if |s| == 0 then []
    else
      assert s == [s[0]] + s[1..];
      Insert(s[0], SortNewestFirst(s[1..]))
  }

  /** `listApiKeys`: exactly the caller's keys (as a permutation), newest
      first, without the hash. */
  function List(store: seq<ApiKey>, userId: string): (r: seq<KeyView>)
    ensures NewestFirst(r)
    ensures multiset(r) == multiset(Views(KeysOf(store, userId)))
    ensures forall v :: v in r <==> exists k :: k in store && k.userId == userId && v == ViewOf(k)
  {
    var r := SortNewestFirst(Views(KeysOf(store, userId)));
    assert forall v :: v in r <==> v in Views(KeysOf(store, userId)) by {
      forall v ensures v in r <==> v in multiset(Views(KeysOf(store, userId))) {
      }
    }
    r
  }

  /** The key `keyId` exists and belongs to `userId`. */
  predicate Owns(store: seq<ApiKey>, userId: string, keyId: string)
  {
    exists i :: 0 <= i < |store| && store[i].id == keyId && store[i].userId == userId
  }

  /** Deletes the row(s) with this id. */
  function RemoveId(store: seq<ApiKey>, keyId: string): (r: seq<ApiKey>)
    ensures |r| <= |store|
    ensures forall k :: k in r <==> k in store && k.id != keyId
  {
    if |store| == 0 then []
    else
      var last := store[|store| - 1];
      RemoveId(store[..|store| - 1], keyId) + (if last.id == keyId then [] else [last])
  }

  /** `revokeApiKey`: a missing key and another user's key give the same
      404 and leave the store unchanged. */
  function Revoke(store: seq<ApiKey>, userId: string, keyId: string): (o: Outcome<()>)
    ensures !Owns(store, userId, keyId) ==> o == Outcome(store, Err(KEY_NOT_FOUND))
    ensures Owns(store, userId, keyId) ==>
              && o.result.Ok?
              && (forall k :: k in o.store <==> k in store && k.id != keyId)
  {
    if !Owns(store, userId, keyId) then Outcome(store, Err(KEY_NOT_FOUND))
    else Outcome(RemoveId(store, keyId), Ok(()))
  }

  /** The row whose hash is `h`, if any (the lookup by the unique keyHash). */
  function FindByHash(store: seq<ApiKey>, h: string): (r: Option<ApiKey>)
    ensures r.None? <==> HashUnused(store, h)
    ensures r.Some? ==> r.value in store && r.value.keyHash == h
  {
    if |store| == 0 then None
    else if store[0].keyHash == h then Some(store[0])
    else
      var r := FindByHash(store[1..], h);
      assert forall i :: 1 <= i < |store| ==> store[i] == store[1..][i - 1];
      r
  }

  /** `validateApiKey`: values without the key prefix are rejected before
      any lookup; otherwise the owner of the row with the value's hash. */
  function Validate(store: seq<ApiKey>, raw: string, hash: string -> string): (r: Option<string>)
    ensures !StartsWith(raw, KEY_PREFIX) ==> r == None
    ensures r.Some? <==> StartsWith(raw, KEY_PREFIX) && !HashUnused(store, hash(raw))
    ensures r.Some? ==> exists k :: k in store && k.keyHash == hash(raw) && k.userId == r.value
  {
    if !StartsWith(raw, KEY_PREFIX) then None
    else
      match FindByHash(store, hash(raw))
      case None => None
      case Some(k) => Some(k.userId)
  }

  /** The background `lastUsedAt` update after a successful validation:
      the keys with that id are stamped `now`, nothing else changes. */
  function RecordUse(store: seq<ApiKey>, keyId: string, now: int): (r: seq<ApiKey>)
    ensures |r| == |store|
    ensures forall i :: 0 <= i < |store| ==> r[i].(lastUsedAt := store[i].lastUsedAt) == store[i]
    ensures forall i :: 0 <= i < |store| && store[i].id == keyId ==> r[i].lastUsedAt == Some(now)
    ensures forall i :: 0 <= i < |store| && store[i].id != keyId ==> r[i] == store[i]
  {
    seq(|store|, i requires 0 <= i < |store| =>
      if store[i].id == keyId then store[i].(lastUsedAt := Some(now)) else store[i])
  }

  // ---------------------------------------------------------------------------
  // Properties

  lemma {:induction false} KeysOfAppend(store: seq<ApiKey>, k: ApiKey, userId: string)
    ensures KeysOf(store + [k], userId) == KeysOf(store, userId) + (if k.userId == userId then [k] else [])
  {
    assert (store + [k])[..|store + [k]| - 1] == store;
  }

  lemma {:induction false} KeysOfRemoveId(store: seq<ApiKey>, keyId: string, userId: string)
    ensures CountFor(RemoveId(store, keyId), userId) <= CountFor(store, userId)
    decreases |store|
  {
    if |store| > 0 {
      var init := store[..|store| - 1];
      var last := store[|store| - 1];
      KeysOfRemoveId(init, keyId, userId);
      var prefix := RemoveId(init, keyId);
      if last.id != keyId {
        assert RemoveId(store, keyId) == prefix + [last];
        KeysOfAppend(prefix, last, userId);
      } else {
        assert RemoveId(store, keyId) == prefix;
      }
    }
  }

  /** A successful create raises the caller's count by exactly one and
      leaves every other user's count as it was; the quota check means that
      only happens from a count below ten. */
  lemma CreateCounts(store: seq<ApiKey>, userId: string, name: string, randomHex: string,
                     hash: string -> string, newId: string, now: int, other: string)
    requires IsRandomPayload(randomHex)
    requires IdUnused(store, newId)
    requires HashUnused(store, hash(GenerateRawKey(randomHex)))
    ensures var o := Create(store, userId, name, randomHex, hash, newId, now);
            o.result.Ok? ==>
              && CountFor(store, userId) < MAX_KEYS_PER_USER
              && CountFor(o.store, userId) == CountFor(store, userId) + 1
              && (other != userId ==> CountFor(o.store, other) == CountFor(store, other))
  {
    var o := Create(store, userId, name, randomHex, hash, newId, now);
    if o.result.Ok? {
      KeysOfAppend(store, o.store[|store|], userId);
      KeysOfAppend(store, o.store[|store|], other);
    }
  }

  /** Sequential creates never take a user above ten keys. */
  lemma CreateKeepsQuota(store: seq<ApiKey>, userId: string, name: string, randomHex: string,
                         hash: string -> string, newId: string, now: int)
    requires WithinQuota(store)
    requires IsRandomPayload(randomHex)
    requires IdUnused(store, newId)
    requires HashUnused(store, hash(GenerateRawKey(randomHex)))
    ensures WithinQuota(Create(store, userId, name, randomHex, hash, newId, now).store)
  {
    forall u ensures CountFor(Create(store, userId, name, randomHex, hash, newId, now).store, u) <= MAX_KEYS_PER_USER {
      CreateCounts(store, userId, name, randomHex, hash, newId, now, u);
    }
  }

  lemma RevokeKeepsQuota(store: seq<ApiKey>, userId: string, keyId: string)
    requires WithinQuota(store)
    ensures WithinQuota(Revoke(store, userId, keyId).store)
  {
    forall u ensures CountFor(Revoke(store, userId, keyId).store, u) <= MAX_KEYS_PER_USER {
      KeysOfRemoveId(store, keyId, u);
    }
  }

  /** Creating keeps the unique constraints. */
  lemma CreateKeepsValid(store: seq<ApiKey>, userId: string, name: string, randomHex: string,
                         hash: string -> string, newId: string, now: int)
    requires Valid(store)
    requires IsRandomPayload(randomHex)
    requires IdUnused(store, newId)
    requires HashUnused(store, hash(GenerateRawKey(randomHex)))
    ensures Valid(Create(store, userId, name, randomHex, hash, newId, now).store)
  {
  }

  lemma {:induction false} RemoveIdIsSubsequence(store: seq<ApiKey>, keyId: string)
    requires Valid(store)
    ensures Valid(RemoveId(store, keyId))
    decreases |store|
  {
    if |store| > 0 {
      var init := store[..|store| - 1];
      assert Valid(init);
      RemoveIdIsSubsequence(init, keyId);
      var last := store[|store| - 1];
      var prefix := RemoveId(init, keyId);
      if last.id != keyId {
        forall i | 0 <= i < |prefix|
          ensures prefix[i].id != last.id && prefix[i].keyHash != last.keyHash
        {
          assert prefix[i] in prefix;
          assert prefix[i] in init;
          var j :| 0 <= j < |init| && init[j] == prefix[i];
          assert store[j] == init[j];
        }
      }
    }
  }

  lemma RevokeKeepsValid(store: seq<ApiKey>, userId: string, keyId: string)
    requires Valid(store)
    ensures Valid(Revoke(store, userId, keyId).store)
  {
    RemoveIdIsSubsequence(store, keyId);
  }

  /** A key just created validates to its creator. */
  lemma ValidateCreated(store: seq<ApiKey>, userId: string, name: string, randomHex: string,
                        hash: string -> string, newId: string, now: int)
    requires IsRandomPayload(randomHex)
    requires IdUnused(store, newId)
    requires HashUnused(store, hash(GenerateRawKey(randomHex)))
    requires Create(store, userId, name, randomHex, hash, newId, now).result.Ok?
    ensures var o := Create(store, userId, name, randomHex, hash, newId, now);
            Validate(o.store, o.result.value.key, hash) == Some(userId)
  {
    var o := Create(store, userId, name, randomHex, hash, newId, now);
    var raw := o.result.value.key;
    FindAppendedHash(store, o.store[|store|], hash(raw));
  }

  lemma {:induction false} FindAppendedHash(store: seq<ApiKey>, k: ApiKey, h: string)
    requires HashUnused(store, h)
    requires k.keyHash == h
    ensures FindByHash(store + [k], h) == Some(k)
    decreases |store|
  {
    if |store| > 0 {
      assert (store + [k])[1..] == store[1..] + [k];
      FindAppendedHash(store[1..], k, h);
    }
  }

  /** Once revoked, a key no longer validates. */
  lemma ValidateRevoked(store: seq<ApiKey>, userId: string, i: nat, raw: string, hash: string -> string)
    requires Valid(store)
    requires i < |store| && store[i].userId == userId && store[i].keyHash == hash(raw)
    ensures Validate(Revoke(store, userId, store[i].id).store, raw, hash) == None
  {
    var s := Revoke(store, userId, store[i].id).store;
    forall j | 0 <= j < |s| ensures s[j].keyHash != hash(raw) {
      assert s[j] in s;
      var m :| 0 <= m < |store| && store[m] == s[j];
    }
  }

  /** Recording a use never changes what validation returns. */
  lemma RecordUseKeepsValidation(store: seq<ApiKey>, keyId: string, now: int, raw: string, hash: string -> string)
    ensures Validate(RecordUse(store, keyId, now), raw, hash) == Validate(store, raw, hash)
  {
    if StartsWith(raw, KEY_PREFIX) {
      RecordUseKeepsLookup(store, keyId, now, hash(raw));
    }
  }

  lemma {:induction false} RecordUseKeepsLookup(store: seq<ApiKey>, keyId: string, now: int, h: string)
    ensures var a := FindByHash(RecordUse(store, keyId, now), h);
            var b := FindByHash(store, h);
            a.Some? == b.Some? && (a.Some? ==> a.value.userId == b.value.userId && a.value.id == b.value.id)
    decreases |store|
  {
    if |store| > 0 {
      assert RecordUse(store, keyId, now)[1..] == RecordUse(store[1..], keyId, now);
      RecordUseKeepsLookup(store[1..], keyId, now, h);
    }
  }
}
