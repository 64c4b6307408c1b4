/**
 Session creation with a per-key replay cache (internal/session/idempotency.go,
 internal/session/service.go): a retry gets the original answer back, and what the service
 does to its tokens is exactly what runs of the capture session rely on.
 */
module CreateIdempotency {
  import opened Wrappers
  import opened FiniteSets
  import opened CaptureState
  import SP = SessionProtocol

  datatype DedupKey = DedupKey(namespace: string, key: CreateKey)

  /** The committed answer of a create. */
  datatype Answer = Answer(token: Token, id: nat, client: string, ttlMinutes: int, createdAt: int)

  datatype Entry = Entry(answer: Answer, issuedAt: int)

  datatype Slot = Slot(key: DedupKey, entry: Entry)

  // ----- The cache as a sequence, least recently used first

  ghost predicate DistinctKeys(slots: seq<Slot>) {
    forall i, j | 0 <= i < j < |slots| :: slots[i].key != slots[j].key
  }

  function Lookup(slots: seq<Slot>, k: DedupKey): (r: Option<Entry>)
    ensures r.Some? ==> Slot(k, r.value) in slots
    ensures r.None? ==> forall slot <- slots :: slot.key != k
  {
    if slots == [] then None
    else if slots[|slots| - 1].key == k then Some(slots[|slots| - 1].entry)
    else Lookup(slots[..|slots| - 1], k)
  }

  function Without(slots: seq<Slot>, k: DedupKey): (r: seq<Slot>)
    ensures |r| <= |slots|
    ensures forall slot :: slot in r <==> slot in slots && slot.key != k
  {
    if slots == [] then []
    else
      var before, last := Without(slots[..|slots| - 1], k), slots[|slots| - 1];
      if last.key == k then before else before + [last]
  }

  /** Adding makes the key the most recently used one; the least recently used one makes room. */
  function Added(slots: seq<Slot>, capacity: nat, k: DedupKey, entry: Entry): seq<Slot> {
    var all := Without(slots, k) + [Slot(k, entry)];
    if |all| > capacity then all[1..] else all
  }

  predicate Expired(entry: Entry, ttl: int, now: int) {
    now - entry.issuedAt >= ttl
  }

  /** A hit is moved to the most recent end; an expired one is dropped. */
  function Resolved(slots: seq<Slot>, ttl: int, k: DedupKey, now: int): seq<Slot> {
    var found := Lookup(slots, k);
    if found.None? then slots
    else if Expired(found.value, ttl, now) then Without(slots, k)
    else Without(slots, k) + [Slot(k, found.value)]
  }

  function Replay(slots: seq<Slot>, ttl: int, k: DedupKey, now: int): Option<Answer> {
    var found := Lookup(slots, k);
    if found.None? || Expired(found.value, ttl, now) then None else Some(found.value.answer)
  }

  lemma {:induction false} WithoutIsDistinct(slots: seq<Slot>, k: DedupKey)
    requires DistinctKeys(slots)
    ensures DistinctKeys(Without(slots, k))
    ensures |Without(slots, k)| == if Lookup(slots, k).Some? then |slots| - 1 else |slots|
  {
    if slots != [] {
      var n := |slots| - 1;
      WithoutIsDistinct(slots[..n], k);
      if slots[n].key == k {
        assert Lookup(slots[..n], k).None?;
      }
    }
  }

  lemma AddedIsDistinct(slots: seq<Slot>, capacity: nat, k: DedupKey, entry: Entry)
    requires DistinctKeys(slots) && |slots| <= capacity && capacity > 0
    ensures DistinctKeys(Added(slots, capacity, k, entry)) && |Added(slots, capacity, k, entry)| <= capacity
    ensures forall slot <- Added(slots, capacity, k, entry) :: slot == Slot(k, entry) || slot in slots
  {
    WithoutIsDistinct(slots, k);
    OneMoreKey(Without(slots, k), Slot(k, entry));
  }

  lemma OneMoreKey(slots: seq<Slot>, slot: Slot)
    requires DistinctKeys(slots) && forall s <- slots :: s.key != slot.key
    ensures DistinctKeys(slots + [slot]) && DistinctKeys((slots + [slot])[1..])
  {
  }

  lemma ResolvedIsDistinct(slots: seq<Slot>, ttl: int, k: DedupKey, now: int)
    requires DistinctKeys(slots)
    ensures DistinctKeys(Resolved(slots, ttl, k, now)) && |Resolved(slots, ttl, k, now)| <= |slots|
    ensures forall slot <- Resolved(slots, ttl, k, now) :: slot in slots
  {
    WithoutIsDistinct(slots, k);
  }

  // ----- How long an answer can be replayed

  datatype Use = Resolve(key: DedupKey, now: int) | Store(key: DedupKey, entry: Entry)

  function Used(slots: seq<Slot>, capacity: nat, ttl: int, use: Use): seq<Slot> {
    match use
    case Resolve(k, now) => Resolved(slots, ttl, k, now)
    case Store(k, entry) => Added(slots, capacity, k, entry)
  }

  function AfterUses(slots: seq<Slot>, capacity: nat, ttl: int, uses: seq<Use>): seq<Slot> {
    if uses == [] then slots
    else Used(AfterUses(slots, capacity, ttl, uses[..|uses| - 1]), capacity, ttl, uses[|uses| - 1])
  }

  ghost function KeysUsed(uses: seq<Use>): set<DedupKey> {
    set use | use in uses :: use.key
  }

  /** The keys used more recently than `k`. */
  ghost function Newer(slots: seq<Slot>, k: DedupKey): set<DedupKey> {
    if slots == [] || slots[|slots| - 1].key == k then {}
    else Newer(slots[..|slots| - 1], k) + {slots[|slots| - 1].key}
  }

  lemma {:induction false} WithoutOther(slots: seq<Slot>, k: DedupKey, other: DedupKey)
    requires k != other
    ensures Lookup(Without(slots, other), k) == Lookup(slots, k)
    ensures Newer(Without(slots, other), k) <= Newer(slots, k)
  {
    if slots != [] {
      var n := |slots| - 1;
      WithoutOther(slots[..n], k, other);
      if slots[n].key != other {
        assert (Without(slots[..n], other) + [slots[n]])[..|Without(slots[..n], other)|] == Without(slots[..n], other);
      }
    }
  }

  lemma Appended(slots: seq<Slot>, slot: Slot, k: DedupKey)
    requires slot.key != k
    ensures Lookup(slots + [slot], k) == Lookup(slots, k)
    ensures Newer(slots + [slot], k) == Newer(slots, k) + {slot.key}
  {
    assert (slots + [slot])[..|slots|] == slots;
  }

  /** Dropping the oldest entry only matters to its own key. */
  lemma {:induction false} OldestDropped(slots: seq<Slot>, k: DedupKey)
    requires slots != [] && slots[0].key != k
    ensures Lookup(slots[1..], k) == Lookup(slots, k)
    ensures Newer(slots[1..], k) <= Newer(slots, k)
  {
    var n := |slots| - 1;
    if n > 0 && slots[n].key != k {
      OldestDropped(slots[..n], k);
      assert slots[1..][..n - 1] == slots[..n][1..];
    }
  }

  /** If `k` is the oldest of distinct keys, all the others are newer. */
  lemma {:induction false} OldestHasAllNewer(slots: seq<Slot>, k: DedupKey)
    requires slots != [] && slots[0].key == k && DistinctKeys(slots)
    ensures |Newer(slots, k)| == |slots| - 1 && forall x <- Newer(slots, k) ::
            exists i :: 0 <= i < |slots| && slots[i].key == x
  {
    var n := |slots| - 1;
    if n > 0 {
      OldestHasAllNewer(slots[..n], k);
      var x := slots[n].key;
      assert x !in Newer(slots[..n], k);
    }
  }

  lemma OneUse(slots: seq<Slot>, capacity: nat, ttl: int, k: DedupKey, use: Use)
    requires DistinctKeys(slots) && |slots| <= capacity && use.key != k && Lookup(slots, k).Some?
    requires |Newer(slots, k) + {use.key}| < capacity
    ensures var next := Used(slots, capacity, ttl, use);
            && DistinctKeys(next) && |next| <= capacity
            && Lookup(next, k) == Lookup(slots, k) && Newer(next, k) <= Newer(slots, k) + {use.key}
  {
    WithoutOther(slots, k, use.key);
    match use
    case Resolve(other, now) =>
      ResolvedIsDistinct(slots, ttl, other, now);
      if Lookup(slots, other).Some? {
        Appended(Without(slots, other), Slot(other, Lookup(slots, other).value), k);
      }
    case Store(other, entry) =>
      StoreOfAnother(slots, capacity, k, other, entry);
  }

  lemma StoreOfAnother(slots: seq<Slot>, capacity: nat, k: DedupKey, other: DedupKey, entry: Entry)
    requires DistinctKeys(slots) && |slots| <= capacity && other != k && Lookup(slots, k).Some?
    requires |Newer(slots, k) + {other}| < capacity
    ensures var next := Added(slots, capacity, other, entry);
            && DistinctKeys(next) && |next| <= capacity
            && Lookup(next, k) == Lookup(slots, k) && Newer(next, k) <= Newer(slots, k) + {other}
  {
    var all := Without(slots, other) + [Slot(other, entry)];
    AddedIsDistinct(slots, capacity, other, entry);
    MovedToEnd(slots, k, other, entry);
    if |all| > capacity {
      OldestIsAnother(all, k, Newer(slots, k) + {other}, capacity);
    }
  }

  /** Another key's entry goes to the end; what is known of `k` does not change. */
  lemma MovedToEnd(slots: seq<Slot>, k: DedupKey, other: DedupKey, entry: Entry)
    requires DistinctKeys(slots) && other != k
    ensures var all := Without(slots, other) + [Slot(other, entry)];
            DistinctKeys(all) && Lookup(all, k) == Lookup(slots, k) && Newer(all, k) <= Newer(slots, k) + {other}
  {
    AddedIsDistinct(slots, |slots| + 1, other, entry);
    WithoutIsDistinct(slots, other);
    WithoutOther(slots, k, other);
    Appended(Without(slots, other), Slot(other, entry), k);
  }

  /** When the cache overflows although fewer keys than it holds are newer than `k`, another one goes. */
  lemma OldestIsAnother(all: seq<Slot>, k: DedupKey, newer: set<DedupKey>, capacity: nat)
    requires DistinctKeys(all) && |all| > capacity && Newer(all, k) <= newer && |newer| < capacity
    ensures Lookup(all[1..], k) == Lookup(all, k) && Newer(all[1..], k) <= newer
  {
    SubsetIsNoLarger(Newer(all, k), newer);
    NotTheOldest(all, k);
    OldestDropped(all, k);
  }

  /** A key with fewer newer ones than there are others is not the oldest. */
  lemma NotTheOldest(slots: seq<Slot>, k: DedupKey)
    requires slots != [] && DistinctKeys(slots) && |Newer(slots, k)| < |slots| - 1
    ensures slots[0].key != k
  {
    if slots[0].key == k {
      OldestHasAllNewer(slots, k);
    }
  }

  // ----- Retries of the same key

  /** The key itself is only asked for, and never later than `now`. */
  ghost predicate OnlyRetried(uses: seq<Use>, k: DedupKey, now: int) {
    forall use <- uses | use.key == k :: use.Resolve? && use.now <= now
  }

  /** A retry within the window keeps the entry and makes it the most recent one. */
  lemma RetryKeeps(slots: seq<Slot>, ttl: int, k: DedupKey, entry: Entry, now: int)
    requires DistinctKeys(slots) && Lookup(slots, k) == Some(entry) && !Expired(entry, ttl, now)
    ensures var later := Resolved(slots, ttl, k, now);
            && DistinctKeys(later) && |later| <= |slots|
            && Lookup(later, k) == Some(entry) && Newer(later, k) == {}
  {
    ResolvedIsDistinct(slots, ttl, k, now);
    var later := Without(slots, k) + [Slot(k, entry)];
    assert later[|later| - 1] == Slot(k, entry);
  }

  /**
   An entry outlives its own retries within the window and any traffic on fewer other keys than the cache has room for.
   */
  lemma {:induction false} EntrySurvives(slots: seq<Slot>, capacity: nat, ttl: int, k: DedupKey, entry: Entry,
                                         uses: seq<Use>, now: int)
    requires DistinctKeys(slots) && |slots| <= capacity && Lookup(slots, k) == Some(entry)
    requires OnlyRetried(uses, k, now) && !Expired(entry, ttl, now)
    requires |Newer(slots, k) + (KeysUsed(uses) - {k})| < capacity
    ensures var later := AfterUses(slots, capacity, ttl, uses);
            && DistinctKeys(later) && |later| <= capacity
            && Lookup(later, k) == Some(entry) && Newer(later, k) <= Newer(slots, k) + (KeysUsed(uses) - {k})
  {
    if uses != [] {
      var n := |uses| - 1;
      var use, others := uses[n], Newer(slots, k) + (KeysUsed(uses) - {k});
      assert uses == uses[..n] + [use];
      assert KeysUsed(uses) == KeysUsed(uses[..n]) + {use.key};
      SubsetIsNoLarger(Newer(slots, k) + (KeysUsed(uses[..n]) - {k}), others);
      EntrySurvives(slots, capacity, ttl, k, entry, uses[..n], now);
      var before := AfterUses(slots, capacity, ttl, uses[..n]);
      if use.key == k {
        RetryKeeps(before, ttl, k, entry, use.now);
      } else {
        SubsetIsNoLarger(Newer(before, k) + {use.key}, others);
        OneUse(before, capacity, ttl, k, use);
      }
    }
  }

  lemma {:induction false} DroppedOrKept(slots: seq<Slot>, k: DedupKey)
    requires slots != []
    ensures Lookup(slots[1..], k).None? || Lookup(slots[1..], k) == Lookup(slots, k)
  {
    var n := |slots| - 1;
    if n > 0 && slots[n].key != k {
      DroppedOrKept(slots[..n], k);
      assert slots[1..][..n - 1] == slots[..n][1..];
    }
  }

  /** What is not stored again can only get lost. */
  lemma UsedLosesAtMost(slots: seq<Slot>, capacity: nat, ttl: int, k: DedupKey, use: Use)
    requires use.key == k ==> use.Resolve?
    ensures var next := Used(slots, capacity, ttl, use);
            Lookup(next, k).None? || Lookup(next, k) == Lookup(slots, k)
  {
    var rest := Without(slots, use.key);
    if use.key != k {
      WithoutOther(slots, k, use.key);
    }
    match use
    case Resolve(other, now) =>
      var found := Lookup(slots, other);
      if found.Some? {
        EndsWith(rest, Slot(other, found.value), k);
      }
    case Store(other, entry) =>
      EndsWith(rest, Slot(other, entry), k);
      DroppedOrKept(rest + [Slot(other, entry)], k);
  }

  lemma EndsWith(slots: seq<Slot>, slot: Slot, k: DedupKey)
    ensures Lookup(slots + [slot], k) == if slot.key == k then Some(slot.entry) else Lookup(slots, k)
  {
    assert (slots + [slot])[..|slots|] == slots;
  }

  lemma {:induction false} LosesAtMost(slots: seq<Slot>, capacity: nat, ttl: int, k: DedupKey, uses: seq<Use>, now: int)
    requires OnlyRetried(uses, k, now)
    ensures var later := AfterUses(slots, capacity, ttl, uses);
            Lookup(later, k).None? || Lookup(later, k) == Lookup(slots, k)
  {
    if uses != [] {
      var n := |uses| - 1;
      assert uses[n] in uses && forall use <- uses[..n] :: use in uses;
      LosesAtMost(slots, capacity, ttl, k, uses[..n], now);
      UsedLosesAtMost(AfterUses(slots, capacity, ttl, uses[..n]), capacity, ttl, k, uses[n]);
    }
  }

  /**
   Every retry within the window, the first and any later one, is answered with the committed answer,
   whatever happened to fewer than `capacity` other keys in between; after the window none is.
   */
  lemma ReplayedWithinWindow(slots: seq<Slot>, capacity: nat, ttl: int, k: DedupKey, entry: Entry, uses: seq<Use>,
                             now: int)
    requires DistinctKeys(slots) && |slots| <= capacity
    requires OnlyRetried(uses, k, now) && |KeysUsed(uses) - {k}| < capacity
    ensures var later := AfterUses(Added(slots, capacity, k, entry), capacity, ttl, uses);
            Replay(later, ttl, k, now) == if now - entry.issuedAt < ttl then Some(entry.answer) else None
  {
    var stored := Added(slots, capacity, k, entry);
    AddedIsDistinct(slots, capacity, k, entry);
    assert stored[|stored| - 1] == Slot(k, entry);
    if Expired(entry, ttl, now) {
      LosesAtMost(stored, capacity, ttl, k, uses, now);
    } else {
      assert Newer(stored, k) + (KeysUsed(uses) - {k}) == KeysUsed(uses) - {k};
      EntrySurvives(stored, capacity, ttl, k, entry, uses, now);
    }
  }

  lemma {:induction false} WithoutAbsent(slots: seq<Slot>, k: DedupKey)
    requires forall slot <- slots :: slot.key != k
    ensures Without(slots, k) == slots
  {
    if slots != [] {
      WithoutAbsent(slots[..|slots| - 1], k);
    }
  }

  /** A hit that turns out to be expired has already been moved when it is removed. */
  lemma RemovedAgain(slots: seq<Slot>, slot: Slot)
    ensures Without(Without(slots, slot.key) + [slot], slot.key) == Without(slots, slot.key)
  {
    var rest := Without(slots, slot.key);
    assert (rest + [slot])[..|rest|] == rest;
    WithoutAbsent(rest, slot.key);
  }

  /** Right after a store the answer is there, unless answers expire at once. */
  lemma StoredIsReplayed(slots: seq<Slot>, capacity: nat, ttl: int, k: DedupKey, answer: Answer, now: int)
    requires capacity > 0
    ensures Replay(Added(slots, capacity, k, Entry(answer, now)), ttl, k, now) == if ttl > 0 then Some(answer) else None
  {
    var stored := Added(slots, capacity, k, Entry(answer, now));
    assert stored[|stored| - 1] == Slot(k, Entry(answer, now));
  }

  /** A replayed answer stays replayable. */
  lemma ReplayedAgain(slots: seq<Slot>, ttl: int, k: DedupKey, now: int)
    requires Replay(slots, ttl, k, now).Some?
    ensures Replay(Resolved(slots, ttl, k, now), ttl, k, now) == Replay(slots, ttl, k, now)
  {
    var later := Resolved(slots, ttl, k, now);
    assert later[|later| - 1] == Slot(k, Lookup(slots, k).value);
  }

  // ----- The store and the service

  /** The replay cache; a service configured without one has none. */
  class IdempotencyStore {
    const capacity: nat
    const ttl: int
    var slots: seq<Slot>

    constructor (capacity: nat, ttl: int)
      requires capacity > 0
      ensures Valid() && this.capacity == capacity && this.ttl == ttl && slots == []
    {
      this.capacity, this.ttl, slots := capacity, ttl, [];
    }

    ghost predicate Valid()
      reads this
    {
      DistinctKeys(slots) && |slots| <= capacity && capacity > 0
    }

    method Resolve(k: DedupKey, now: int) returns (found: Option<Answer>)
      requires Valid()
      modifies this`slots
      ensures Valid()
      ensures slots == Resolved(old(slots), ttl, k, now)
      ensures found == Replay(old(slots), ttl, k, now)
    {
      ResolvedIsDistinct(slots, ttl, k, now);
      var entry := Lookup(slots, k);
      if entry.None? {
        return None;
      }
      slots := Without(slots, k) + [Slot(k, entry.value)];
      if Expired(entry.value, ttl, now) {
        RemovedAgain(old(slots), Slot(k, entry.value));
        slots := Without(slots, k);
        return None;
      }
      return Some(entry.value.answer);
    }

    method Store(k: DedupKey, answer: Answer, now: int)
      requires Valid()
      modifies this`slots
      ensures Valid()
      ensures slots == Added(old(slots), capacity, k, Entry(answer, now))
    {
      AddedIsDistinct(slots, capacity, k, Entry(answer, now));
      slots := Without(slots, k) + [Slot(k, Entry(answer, now))];
      if |slots| > capacity {
        slots := slots[1..];
      }
    }
  }

  /** What the client calls its create; without it nothing is deduplicated. */
  datatype Retry = Retry(sessionId: string, recovery: nat)

  datatype Request = Request(namespace: string, client: string, ttlMinutes: int, retry: Option<Retry>)

  datatype CreateError = NamespaceRequired | InvalidTtl | NoRandomness | InsertFailed

  datatype CreateResult = Answered(answer: Answer) | Refused(error: CreateError)

  /** A row of the sessions table, found by its token. */
  datatype Row = Row(namespace: string, answer: Answer)

  const DEFAULT_CLIENT := "default"

  function ClientOf(req: Request): string {
    if req.client == "" then DEFAULT_CLIENT else req.client
  }

  function KeyOf(req: Request): DedupKey
    requires req.retry.Some?
  {
    DedupKey(req.namespace, CreateKey(ClientOf(req), req.retry.value.sessionId, req.retry.value.recovery))
  }

  /** Two creates share an answer only within a namespace and a client, for the same session and number. */
  lemma SameKeyIff(a: Request, b: Request)
    requires a.retry.Some? && b.retry.Some?
    ensures KeyOf(a) == KeyOf(b) <==>
              && a.namespace == b.namespace && a.retry == b.retry
              && (a.client == b.client || (a.client == "" && b.client == "default")
                || (a.client == "default" && b.client == ""))
  {
    assert a.retry == b.retry <==> a.retry.value == b.retry.value;
  }

  /** The tokens of one namespace that were created under a key. */
  ghost function MintedIn(minted: map<Token, Option<DedupKey>>, namespace: string): map<Token, CreateKey> {
    map t | t in minted && minted[t].Some? && minted[t].value.namespace == namespace :: minted[t].value.key
  }

  lemma MintsUnder(minted: map<Token, Option<DedupKey>>, k: DedupKey, token: Token)
    requires token != "" && token !in minted
    ensures SP.ServerCreate(MintedIn(minted, k.namespace), MintedIn(minted[token := Some(k)], k.namespace), k.key,
            token)
  {
    assert MintedIn(minted[token := Some(k)], k.namespace) == MintedIn(minted, k.namespace)[token := k.key];
  }

  lemma MintedBefore(minted: map<Token, Option<DedupKey>>, k: DedupKey, token: Token)
    requires token != "" && token in minted && minted[token] == Some(k)
    ensures SP.ServerCreate(MintedIn(minted, k.namespace), MintedIn(minted, k.namespace), k.key, token)
  {
  }

  predicate Acceptable(req: Request) {
    req.namespace != "" && req.ttlMinutes > 0
  }

  class Service {
    const idempotency: IdempotencyStore?
    var rows: map<Token, Row>
    var nextId: nat
    ghost var minted: map<Token, Option<DedupKey>>

    constructor (idempotency: IdempotencyStore?)
      requires idempotency != null ==> idempotency.Valid() && idempotency.slots == []
      ensures this.idempotency == idempotency && rows == map[] && minted == map[] && Valid()
    {
      this.idempotency, rows, nextId, minted := idempotency, map[], 1, map[];
    }

    /** Cached answers and stored rows are of tokens this service minted, each under its own key. */
    ghost predicate Valid()
      reads this, idempotency
    {
      && rows.Keys == minted.Keys && "" !in minted
      && (forall t <- rows :: rows[t].answer.token == t)
      && (idempotency != null ==>
            && idempotency.Valid()
            && forall slot <- idempotency.slots ::
                 slot.entry.answer.token in minted && minted[slot.entry.answer.token] == Some(slot.key))
    }

    ghost function Remembered(req: Request, now: int): Option<Answer>
      reads this, idempotency
    {
      if idempotency == null || req.retry.None? then None
        else Replay(idempotency.slots, idempotency.ttl, KeyOf(req), now)
    }

    /** `random` is the next token of the generator, if it works; `inserted` whether the transaction commits. */
    method Create(req: Request, now: int, createdAt: int, random: Option<Token>, inserted: bool)
      returns (result: CreateResult)
      requires Valid()
      requires random.Some? ==> random.value != "" && random.value !in minted
      modifies this, idempotency
      ensures Valid()
      ensures result == Refused(NamespaceRequired) <==> req.namespace == ""
      ensures result == Refused(InvalidTtl) <==> req.namespace != "" && req.ttlMinutes <= 0
      ensures result.Refused? ==> rows == old(rows) && minted == old(minted)
      ensures Acceptable(req) && old(Remembered(req, now)).Some? ==>
                result == Answered(old(Remembered(req, now)).value) && rows == old(rows) && minted == old(minted)
      ensures Acceptable(req) && old(Remembered(req, now)).None? ==>
                && (result == Refused(NoRandomness) <==> random.None?)
                && (result == Refused(InsertFailed) <==> random.Some? && !inserted)
                && (result.Answered? ==>
                      && result.answer == Answer(random.value, old(nextId), ClientOf(req), req.ttlMinutes, createdAt)
                      && rows == old(rows)[random.value := Row(req.namespace, result.answer)])
      ensures result.Answered? && req.retry.Some? ==>
                SP.ServerCreate(MintedIn(old(minted), req.namespace), MintedIn(minted, req.namespace), KeyOf(req).key,
                  result.answer.token)
      ensures result.Answered? && req.retry.Some? && idempotency != null ==>
                Remembered(req, now) == if idempotency.ttl > 0 || old(Remembered(req, now)).Some?
                  then Some(result.answer) else None
    {
      if req.namespace == "" {
        return Refused(NamespaceRequired);
      }
      if req.ttlMinutes <= 0 {
        return Refused(InvalidTtl);
      }
      if idempotency != null && req.retry.Some? {
        var k := KeyOf(req);
        ResolvedIsDistinct(idempotency.slots, idempotency.ttl, k, now);
        var cached := idempotency.Resolve(k, now);
        if cached.Some? {
          ReplayedAgain(old(idempotency.slots), idempotency.ttl, k, now);
          MintedBefore(minted, k, cached.value.token);
          return Answered(cached.value);
        }
      }
      if random.None? {
        return Refused(NoRandomness);
      }
      if !inserted {
        return Refused(InsertFailed);
      }
      var answer := Commit(req, now, createdAt, random.value);
      result := Answered(answer);
    }

    /** The row is in; the answer is remembered for retries. */
    method Commit(req: Request, now: int, createdAt: int, token: Token) returns (answer: Answer)
      requires Valid() && token != "" && token !in minted
      modifies this, idempotency
      ensures Valid()
      ensures answer == Answer(token, old(nextId), ClientOf(req), req.ttlMinutes, createdAt)
      ensures rows == old(rows)[token := Row(req.namespace, answer)]
      ensures req.retry.Some? ==>
                SP.ServerCreate(MintedIn(old(minted), req.namespace), MintedIn(minted, req.namespace), KeyOf(req).key,
                  token)
      ensures req.retry.Some? && idempotency != null ==>
                Remembered(req, now) == if idempotency.ttl > 0 then Some(answer) else None
    {
      answer := Answer(token, nextId, ClientOf(req), req.ttlMinutes, createdAt);
      rows, nextId := rows[token := Row(req.namespace, answer)], nextId + 1;
      if req.retry.None? {
        minted := minted[token := None];
        return;
      }
      var k := KeyOf(req);
      MintsUnder(minted, k, token);
      minted := minted[token := Some(k)];
      if idempotency != null {
        AddedIsDistinct(idempotency.slots, idempotency.capacity, k, Entry(answer, now));
        StoredIsReplayed(idempotency.slots, idempotency.capacity, idempotency.ttl, k, answer, now);
        idempotency.Store(k, answer, now);
      }
    }
  }
}
