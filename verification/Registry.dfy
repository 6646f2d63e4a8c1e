/** The upload token registries of internal/upload: in memory, and on a Valkey server. */
module Registry {
  import opened Inodes

  /** Nanoseconds. */
  type Time = int
  const SECOND: Time := 1_000_000_000

  datatype PresignMeta = PresignMeta(uploadID: string, driveID: DriveId, userID: string, path: string,
                                     bucket: string, key: string, size: Option<int>, expiresAt: Time)

  // ---------------------------------------------------------------- in memory

  datatype Item = Item(meta: PresignMeta, exp: Time)

  /** What has been done to a registry, in order. */
  datatype Event = Put(meta: PresignMeta, at: Time, ttl: Time) | Delete(uploadID: string)

  predicate Touches(e: Event, id: string) {
    match e
    case Put(meta, _, _) => meta.uploadID == id
    case Delete(uploadID) => uploadID == id
  }

  /** The event of the history that an id's state comes from. */
  ghost predicate IsLast(h: seq<Event>, id: string, i: int) {
    0 <= i < |h| && Touches(h[i], id) && forall j | i < j < |h| :: !Touches(h[j], id)
  }

  /** An expiring map: the last Put of the id, if it was not deleted since and its time
      has not run out. */
  ghost predicate Live(h: seq<Event>, id: string, now: Time, meta: PresignMeta) {
    exists i :: IsLast(h, id, i) && h[i].Put? && h[i].meta == meta && now <= h[i].at + h[i].ttl
  }

  class MemoryRegistry {
    var items: map<string, Item>
    ghost var history: seq<Event>

    ghost predicate Valid()
      reads this
    {
      Records(history, items)
    }

    constructor ()
      ensures Valid() && items == map[] && history == []
    {
      items, history := map[], [];
    }

    method Put(meta: PresignMeta, ttl: Time, now: Time)
      requires Valid()
      modifies this
      ensures Valid() && history == old(history) + [Event.Put(meta, now, ttl)]
      ensures items == old(items)[meta.uploadID := Item(meta, now + ttl)]
    {
      RecordsNext(history, items, Event.Put(meta, now, ttl));
      items := items[meta.uploadID := Item(meta, now + ttl)];
      history := history + [Event.Put(meta, now, ttl)];
    }

    /** Expiry is lazy: an item past its time stays, but is not returned. */
    method Get(uploadID: string, now: Time) returns (r: Option<PresignMeta>)
      requires Valid()
      ensures forall m :: r == Some(m) <==> Live(history, uploadID, now, m)
      ensures r == GetItem(items, uploadID, now)
    {
      LiveIsItem(history, items, uploadID, now);
      if uploadID !in items || now > items[uploadID].exp { return None; }
      return Some(items[uploadID].meta);
    }

    method Delete(uploadID: string)
      requires Valid()
      modifies this
      ensures Valid() && history == old(history) + [Event.Delete(uploadID)]
      ensures items == old(items) - {uploadID}
    {
      RecordsNext(history, items, Event.Delete(uploadID));
      items := items - {uploadID};
      history := history + [Event.Delete(uploadID)];
    }
  }

  function GetItem(items: map<string, Item>, id: string, now: Time): Option<PresignMeta> {
    if id !in items || now > items[id].exp then None else Some(items[id].meta)
  }

  /** The items are what the history leaves. */
  ghost predicate Records(h: seq<Event>, items: map<string, Item>) {
    (forall id | id in items ::
       exists i :: IsLast(h, id, i) && h[i].Put? && items[id] == Item(h[i].meta, h[i].at + h[i].ttl))
    && forall id, i | IsLast(h, id, i) && h[i].Put? :: id in items
  }

  function AfterEvent(items: map<string, Item>, e: Event): map<string, Item> {
    match e
    case Put(meta, at, ttl) => items[meta.uploadID := Item(meta, at + ttl)]
    case Delete(id) => items - {id}
  }

  lemma LastUnique(h: seq<Event>, id: string, i: int, j: int)
    requires IsLast(h, id, i) && IsLast(h, id, j)
    ensures i == j
  {
  }

  lemma LastNext(h: seq<Event>, e: Event, id: string, i: int)
    ensures Touches(e, id) ==> (IsLast(h + [e], id, i) <==> i == |h|)
    ensures !Touches(e, id) ==> (IsLast(h + [e], id, i) <==> IsLast(h, id, i))
  {
    var g := h + [e];
    assert g[|h|] == e && forall j | 0 <= j < |h| :: g[j] == h[j];
  }

  lemma RecordsNext(h: seq<Event>, items: map<string, Item>, e: Event)
    requires Records(h, items)
    ensures Records(h + [e], AfterEvent(items, e))
  {
    var g, next := h + [e], AfterEvent(items, e);
    forall id | id in next
      ensures exists i :: IsLast(g, id, i) && g[i].Put? && next[id] == Item(g[i].meta, g[i].at + g[i].ttl)
    {
      if Touches(e, id) {
        LastNext(h, e, id, |h|);
        assert g[|h|] == e;
      } else {
        var i :| IsLast(h, id, i) && h[i].Put? && items[id] == Item(h[i].meta, h[i].at + h[i].ttl);
        LastNext(h, e, id, i);
        assert g[i] == h[i];
      }
    }
    forall id, i | IsLast(g, id, i) && g[i].Put? ensures id in next {
      LastNext(h, e, id, i);
      if Touches(e, id) { assert g[|h|] == e; } else { assert g[i] == h[i]; }
    }
  }

  lemma LiveIsItem(h: seq<Event>, items: map<string, Item>, id: string, now: Time)
    requires Records(h, items)
    ensures forall m :: GetItem(items, id, now) == Some(m) <==> Live(h, id, now, m)
  {
    if id in items {
      var i :| IsLast(h, id, i) && h[i].Put? && items[id] == Item(h[i].meta, h[i].at + h[i].ttl);
      forall j | IsLast(h, id, j) ensures i == j { LastUnique(h, id, i, j); }
    }
  }

  // ---------------------------------------------------------------- on Valkey

  /** The server keeps whole seconds: int64(ttl.Seconds()) truncates toward zero. */
  function Seconds(ttl: Time): int {
    if ttl >= 0 then ttl / SECOND else -((-ttl) / SECOND)
  }

  datatype Stored = Stored(meta: PresignMeta, deadline: Time)

  /** What Valkey's Get finds: the server has dropped keys past their deadline, and the
      token's own expiry is checked as well. */
  function Found(keys: map<string, Stored>, id: string, now: Time): Option<PresignMeta> {
    if id !in keys || now > keys[id].deadline || now > keys[id].meta.expiresAt then None else Some(keys[id].meta)
  }

  function AfterLookup(keys: map<string, Stored>, id: string, now: Time): map<string, Stored> {
    if id in keys && now <= keys[id].deadline && now > keys[id].meta.expiresAt then keys - {id} else keys
  }

  class ValkeyRegistry {
    var keys: map<string, Stored>

    constructor ()
      ensures keys == map[]
    {
      keys := map[];
    }

    method Put(meta: PresignMeta, ttl: Time, now: Time)
      modifies this
      ensures keys == old(keys)[meta.uploadID := Stored(meta, now + Seconds(ttl) * SECOND)]
    {
      keys := keys[meta.uploadID := Stored(meta, now + Seconds(ttl) * SECOND)];
    }

    /** Deletes the key of a token it finds expired. */
    method Get(uploadID: string, now: Time) returns (r: Option<PresignMeta>)
      modifies this
      ensures r == Found(old(keys), uploadID, now)
      ensures keys == AfterLookup(old(keys), uploadID, now)
    {
      if uploadID !in keys || now > keys[uploadID].deadline { return None; }
      var meta := keys[uploadID].meta;
      if now > meta.expiresAt {
        Delete(uploadID);
        return None;
      }
      return Some(meta);
    }

    method Delete(uploadID: string)
      modifies this
      ensures keys == old(keys) - {uploadID}
    {
      keys := keys - {uploadID};
    }
  }

  // ---------------------------------------------------------------- the two compared

  /** One registry call each, as the upload service makes them. started is the moment
      InitiateUpload computed the token's expiry at. */
  datatype Call =
    | Initiate(meta: PresignMeta, started: Time, ttl: Time)
    | Lookup(uploadID: string)
    | Drop(uploadID: string)

  /** A token is stored no earlier than its expiry was computed. */
  predicate ByInitiateUpload(c: Call, now: Time) {
    c.Initiate? ==> c.started <= now && c.meta.expiresAt == c.started + c.ttl
  }

  /** Both registries hold the same token, and memory keeps it at least as long. */
  ghost predicate Shadows(items: map<string, Item>, keys: map<string, Stored>) {
    forall id | id in keys :: id in items && items[id].meta == keys[id].meta
                              && keys[id].meta.expiresAt <= items[id].exp
  }

  function MemoryAfter(items: map<string, Item>, c: Call, now: Time): map<string, Item> {
    match c
    case Initiate(meta, _, ttl) => items[meta.uploadID := Item(meta, now + ttl)]
    case Lookup(_) => items
    case Drop(id) => items - {id}
  }

  function ValkeyAfter(keys: map<string, Stored>, c: Call, now: Time): map<string, Stored> {
    match c
    case Initiate(meta, _, ttl) => keys[meta.uploadID := Stored(meta, now + Seconds(ttl) * SECOND)]
    case Lookup(id) => AfterLookup(keys, id, now)
    case Drop(id) => keys - {id}
  }

  function MemoryAnswer(items: map<string, Item>, c: Call, now: Time): Option<PresignMeta> {
    if c.Lookup? then GetItem(items, c.uploadID, now) else None
  }

  function ValkeyAnswer(keys: map<string, Stored>, c: Call, now: Time): Option<PresignMeta> {
    if c.Lookup? then Found(keys, c.uploadID, now) else None
  }

  /** What the calls return, each made at its time. */
  function MemoryAnswers(items: map<string, Item>, calls: seq<Call>, times: seq<Time>): (r: seq<Option<PresignMeta>>)
    requires |times| == |calls|
    ensures |r| == |calls|
    decreases |calls|
  {
    if calls == [] then []
    else [MemoryAnswer(items, calls[0], times[0])]
         + MemoryAnswers(MemoryAfter(items, calls[0], times[0]), calls[1..], times[1..])
  }

  function ValkeyAnswers(keys: map<string, Stored>, calls: seq<Call>, times: seq<Time>): (r: seq<Option<PresignMeta>>)
    requires |times| == |calls|
    ensures |r| == |calls|
    decreases |calls|
  {
    if calls == [] then []
    else [ValkeyAnswer(keys, calls[0], times[0])]
         + ValkeyAnswers(ValkeyAfter(keys, calls[0], times[0]), calls[1..], times[1..])
  }

  lemma ShadowsNext(items: map<string, Item>, keys: map<string, Stored>, c: Call, now: Time)
    requires Shadows(items, keys) && ByInitiateUpload(c, now)
    ensures Shadows(MemoryAfter(items, c, now), ValkeyAfter(keys, c, now))
    ensures ValkeyAnswer(keys, c, now).Some? ==> MemoryAnswer(items, c, now) == ValkeyAnswer(keys, c, now)
  {
  }

  /** Over any calls InitiateUpload and its clients make, any token Valkey still returns is
      one that memory returns too. */
  lemma {:induction false} ValkeyImpliesMemory(items: map<string, Item>, keys: map<string, Stored>, calls: seq<Call>,
                                               times: seq<Time>)
    requires Shadows(items, keys) && |times| == |calls|
    requires forall i | 0 <= i < |calls| :: ByInitiateUpload(calls[i], times[i])
    ensures forall i | 0 <= i < |calls| && ValkeyAnswers(keys, calls, times)[i].Some? ::
              MemoryAnswers(items, calls, times)[i] == ValkeyAnswers(keys, calls, times)[i]
    decreases |calls|
  {
    if calls != [] {
      ShadowsNext(items, keys, calls[0], times[0]);
      ValkeyImpliesMemory(MemoryAfter(items, calls[0], times[0]), ValkeyAfter(keys, calls[0], times[0]), calls[1..],
                          times[1..]);
    }
  }

  /** Serves the same calls to both. */
  method Compare(memory: MemoryRegistry, valkey: ValkeyRegistry, calls: seq<Call>, times: seq<Time>)
      returns (inMemory: seq<Option<PresignMeta>>, inValkey: seq<Option<PresignMeta>>)
    requires memory.Valid() && |times| == |calls|
    modifies memory, valkey
    ensures memory.Valid()
    ensures inMemory == MemoryAnswers(old(memory.items), calls, times)
    ensures inValkey == ValkeyAnswers(old(valkey.keys), calls, times)
  {
    inMemory, inValkey := [], [];
    assert calls[0..] == calls && times[0..] == times;
    for i := 0 to |calls|
      invariant memory.Valid()
      invariant inMemory
                + MemoryAnswers(memory.items, calls[i..], times[i..]) == MemoryAnswers(old(memory.items), calls, times)
      invariant inValkey
                + ValkeyAnswers(valkey.keys, calls[i..], times[i..]) == ValkeyAnswers(old(valkey.keys), calls, times)
    {
      AnswersNext(memory.items, valkey.keys, calls, times, i, inMemory, inValkey);
      var m, v := CallBoth(memory, valkey, calls[i], times[i]);
      inMemory, inValkey := inMemory + [m], inValkey + [v];
    }
  }

  lemma AnswersNext(items: map<string, Item>, keys: map<string, Stored>, calls: seq<Call>, times: seq<Time>, i: nat,
                    m: seq<Option<PresignMeta>>, v: seq<Option<PresignMeta>>)
    requires i < |calls| == |times|
    ensures m + MemoryAnswers(items, calls[i..], times[i..]) ==
            m + [MemoryAnswer(items, calls[i], times[i])]
              + MemoryAnswers(MemoryAfter(items, calls[i], times[i]), calls[i + 1..], times[i + 1..])
    ensures v + ValkeyAnswers(keys, calls[i..], times[i..]) ==
            v + [ValkeyAnswer(keys, calls[i], times[i])]
              + ValkeyAnswers(ValkeyAfter(keys, calls[i], times[i]), calls[i + 1..], times[i + 1..])
  {
    assert calls[i..][1..] == calls[i + 1..] && times[i..][1..] == times[i + 1..];
  }

  method CallBoth(memory: MemoryRegistry, valkey: ValkeyRegistry, c: Call, now: Time)
      returns (m: Option<PresignMeta>, v: Option<PresignMeta>)
    requires memory.Valid()
    modifies memory, valkey
    ensures memory.Valid() && memory.items == MemoryAfter(old(memory.items), c, now)
            && m == MemoryAnswer(old(memory.items), c, now)
    ensures valkey.keys == ValkeyAfter(old(valkey.keys), c, now) && v == ValkeyAnswer(old(valkey.keys), c, now)
  {
    m, v := None, None;
    match c {
      case Initiate(meta, _, ttl) =>
        memory.Put(meta, ttl, now);
        valkey.Put(meta, ttl, now);
      case Lookup(id) =>
        m := memory.Get(id, now);
        v := valkey.Get(id, now);
      case Drop(id) =>
        memory.Delete(id);
        valkey.Delete(id);
    }
  }

  /** A key put on the server is there exactly until its time to live, rounded towards zero to
      whole seconds, is over; the rounding takes off less than one. */
  lemma ValkeyLives(meta: PresignMeta, put: Time, ttl: Time, now: Time) returns (whole: Time)
    requires now <= meta.expiresAt
    ensures whole % 1_000_000_000 == 0 && (0 <= whole <= ttl || ttl <= whole <= 0)
    ensures -1_000_000_000 < ttl - whole < 1_000_000_000
    ensures Found(map[meta.uploadID := Stored(meta, put + Seconds(ttl) * SECOND)], meta.uploadID, now).Some? <==>
            now - put <= whole
  {
    whole := Seconds(ttl) * SECOND;
  }

  /** When the two differ: after one Put of a token, Valkey lets it go once the whole
      seconds since the Put, or the token's own expiry, have passed. */
  lemma ValkeyIsEarlier(meta: PresignMeta, started: Time, put: Time, ttl: Time, now: Time)
    requires started <= put && meta.expiresAt == started + ttl
    ensures var memory := GetItem(map[meta.uploadID := Item(meta, put + ttl)], meta.uploadID, now);
            var valkey := Found(map[meta.uploadID := Stored(meta, put + Seconds(ttl) * SECOND)], meta.uploadID, now);
            (valkey.Some? ==> memory == valkey)
            && (memory != valkey <==> now <= put + ttl && (now > started + ttl || now > put + Seconds(ttl) * SECOND))
  {
  }
}
