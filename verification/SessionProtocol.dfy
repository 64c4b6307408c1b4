/**
 Runs of the capture session: any number of short-lived processes work on one record, CALM creates
 sessions with per-key deduplication, and a bookkeeper remembers what the disk has ever held.
 (internal/adapter/session/manager.go against internal/session/service.go)
 */
module SessionProtocol {
  import opened Wrappers
  import opened CaptureState

  /** One merge of a registry entry that reached the disk. */
  datatype Recorded = Recorded(epoch: nat, token: Token, source: string, value: string)

  /** A (epoch, token) pair of a record that was on disk at some point. */
  datatype Held = Held(epoch: nat, token: Token)

  datatype Issue = Issue(token: Token, seqNo: nat)

  /** A token that was persisted as the session's, and the number in its create key. */
  datatype Generation = Generation(token: Token, recovery: nat)

  datatype World = World(
    disk: Option<State>,
    minted: map<Token, CreateKey>,
    held: set<Held>,
    generations: seq<Generation>,
    issued: seq<Issue>,
    log: set<Recorded>)

  /** Before anything is written, the record counts as a fresh one: epoch 0, no token. */
  const START := World(None, map[], {Held(0, "")}, [], [], {})

  // ----- CALM

  /** A create answers with the token already minted for its key, or mints one never seen before. */
  ghost predicate ServerCreate(before: map<Token, CreateKey>, after: map<Token, CreateKey>, key: CreateKey,
                               token: Token) {
    && token != ""
    && if token in before then before[token] == key && after == before else after == before[token := key]
  }

  /** A failed create may still have gone through on the other side. */
  ghost predicate ServerReacts(before: map<Token, CreateKey>, after: map<Token, CreateKey>,
                               asked: Option<CreateKey>, outcome: CreateOutcome)
  {
    if asked.None? then after == before else
      match outcome
      case Created(token) => ServerCreate(before, after, asked.value, token)
      case CreateRejected => after == before
      case CreateFailed => after == before || exists token :: ServerCreate(before, after, asked.value, token)
  }

  // ----- Steps

  datatype Step =
    | Ensure(client: string, env: Env)
    | Record(token: Token, delta: seq<SourceToken>, env: Env)
    | Latch(env: Env)
    | Recover(client: string, failedToken: Token, env: Env)
    | Reset(env: Env)
    | MintElsewhere(key: CreateKey, token: Token)

  ghost function Observe(held: set<Held>, disk: Option<State>): set<Held> {
    if disk.Some? then held + {Held(disk.value.epoch, disk.value.token)} else held
  }

  ghost function Asked(w: World, me: string, step: Step): Option<CreateKey> {
    match step
    case Ensure(client, env) => if EnsureCreates(w.disk, me, env) then Some(EnsureKey(w.disk, me, client)) else None
    case Recover(client, failed, env) =>
      if RecoverCreates(w.disk, me, failed, env) then Some(RecoverKey(w.disk, me, client)) else None
    case _ => None
  }

  /** The generation a create produces, once it is on disk. */
  ghost function Born(asked: Option<CreateKey>, env: Env): seq<Generation> {
    if asked.Some? && env.create.Created? && env.save != SaveFailed
    then [Generation(env.create.token, asked.value.recovery)] else []
  }

  ghost function IssuedBy(w: World, me: string, env: Env): seq<Issue> {
    var reply := EnsureReplies(w.disk, me, env);
    if reply.Allocated? then [Issue(reply.token, reply.seqNo)] else []
  }

  ghost function LoggedBy(w: World, me: string, token: Token, delta: seq<SourceToken>, env: Env): set<Recorded> {
    if delta != [] && StillHolds(w.disk, me, token, env) && env.save != SaveFailed
    then set d | d in delta :: Recorded(w.disk.value.epoch, token, d.source, d.token) else {}
  }

  /** Callers of `Record` pass a token that an earlier `Ensure` handed out. */
  ghost predicate WasIssued(w: World, token: Token) {
    exists i :: 0 <= i < |w.issued| && w.issued[i].token == token
  }

  ghost predicate Next(me: string, w: World, step: Step, w': World) {
    match step
    case Ensure(_, env) =>
      && ServerReacts(w.minted, w'.minted, Asked(w, me, step), env.create)
      && w' == w.(disk := EnsureDisk(w.disk, me, env), minted := w'.minted,
                  held := Observe(w.held, EnsureDisk(w.disk, me, env)),
                  generations := w.generations + Born(Asked(w, me, step), env),
                  issued := w.issued + IssuedBy(w, me, env))
    case Record(token, delta, env) =>
      && WasIssued(w, token)
      && w' == w.(disk := RecordDisk(w.disk, me, token, delta, env),
                  held := Observe(w.held, RecordDisk(w.disk, me, token, delta, env)),
                  log := w.log + LoggedBy(w, me, token, delta, env))
    case Latch(env) =>
      w' == w.(disk := LatchDisk(w.disk, me, env), held := Observe(w.held, LatchDisk(w.disk, me, env)))
    case Recover(_, failed, env) =>
      && ServerReacts(w.minted, w'.minted, Asked(w, me, step), env.create)
      && w' == w.(disk := RecoverDisk(w.disk, me, failed, env), minted := w'.minted,
                  held := Observe(w.held, RecoverDisk(w.disk, me, failed, env)),
                  generations := w.generations + Born(Asked(w, me, step), env))
    case Reset(env) =>
      w' == w.(disk := ResetDisk(w.disk, me, env), held := Observe(w.held, ResetDisk(w.disk, me, env)))
    case MintElsewhere(key, token) =>
      && ServerCreate(w.minted, w'.minted, key, token)
      && w' == w.(minted := w'.minted)
  }

  // ----- The invariant

  /** No session right now, and none is barred: the next `Ensure` will create one. */
  predicate Vacant(st: State) {
    st.token == "" && !st.authFailed
  }

  ghost predicate HeldInv(me: string, st: State, held: set<Held>, minted: map<Token, CreateKey>) {
    && Held(st.epoch, st.token) in held
    && (forall h <- held :: h.epoch <= st.epoch)
    && (forall h <- held | h.token != "" ::
          h.token in minted && minted[h.token].sessionId == me && minted[h.token].recovery <= st.recoverySeq)
    && (Vacant(st) ==> forall h <- held | h.token != "" ::
      minted[h.token].recovery < st.recoverySeq && h.epoch < st.epoch)
    && (st.token != "" ==> forall h <- held | h.token != "" && h.epoch == st.epoch :: h.token == st.token)
  }

  /** Each epoch has carried at most one session, and each session belongs to one epoch. */
  ghost predicate OneSessionPerEpoch(held: set<Held>) {
    forall a <- held, b <- held | a.token != "" && b.token != "" :: a.epoch == b.epoch <==> a.token == b.token
  }

  /** Registry entries on disk were recorded in the current epoch; a vacant record has none. */
  ghost predicate RegistryInv(st: State, log: set<Recorded>) {
    && st.registry.Keys == st.registrySeq.Keys
    && (Vacant(st) ==> st.registry == map[])
    && forall source <- st.registry :: exists r <- log ::
      r.epoch == st.epoch && r.source == source && r.value == st.registry[source]
  }

  ghost predicate LogInv(log: set<Recorded>, held: set<Held>) {
    forall r <- log :: r.token != "" && Held(r.epoch, r.token) in held
  }

  ghost predicate IssuedInv(issued: seq<Issue>, seqNo: nat, held: set<Held>) {
    && (forall i | 0 <= i < |issued| ::
          issued[i].token != "" && issued[i].seqNo <= seqNo && exists h <- held :: h.token == issued[i].token)
    && (forall i, j | 0 <= i < j < |issued| :: issued[i].seqNo < issued[j].seqNo)
  }

  ghost predicate GenerationsInv(st: State, generations: seq<Generation>, held: set<Held>,
                                 minted: map<Token, CreateKey>) {
    && (forall i | 0 <= i < |generations| ::
          var g := generations[i];
          && g.token != "" && g.token in minted && minted[g.token].recovery == g.recovery
          && g.recovery <= st.recoverySeq && (Vacant(st) ==> g.recovery < st.recoverySeq))
    && (forall i, j | 0 <= i < j < |generations| :: generations[i].recovery < generations[j].recovery)
    && (forall h <- held | h.token != "" :: exists i :: 0 <= i < |generations| && generations[i].token == h.token)
  }

  ghost predicate Inv(me: string, w: World) {
    if w.disk.None? then w.held == {Held(0, "")} && w.generations == [] && w.issued == [] && w.log == {} else
      var st := w.disk.value;
      && st.sessionId == me
      && HeldInv(me, st, w.held, w.minted)
      && OneSessionPerEpoch(w.held)
      && RegistryInv(st, w.log)
      && LogInv(w.log, w.held)
      && IssuedInv(w.issued, st.seqNo, w.held)
      && GenerationsInv(st, w.generations, w.held, w.minted)
  }

  // ----- How a record can change

  /** Counting and throttling touch nothing the invariant is about. */
  predicate OnlyCounts(before: State, after: State) {
    after == before.(seqNo := after.seqNo, nextAttempt := after.nextAttempt) && after.seqNo >= before.seqNo
  }

  /** A world whose record has not been written yet is treated as holding a fresh, vacant one. */
  ghost function WithRecord(w: World, me: string): World {
    if w.disk.Some? then w else w.(disk := Some(NewState(me)))
  }

  lemma FreshRecord(me: string, w: World)
    requires Inv(me, w)
    ensures Inv(me, WithRecord(w, me))
  {
  }

  lemma Counts(me: string, w: World, st: State)
    requires Inv(me, w) && w.disk.Some? && OnlyCounts(w.disk.value, st)
    ensures Inv(me, w.(disk := Some(st)))
  {
  }

  /** More tokens at the server do not disturb anything. */
  lemma Mints(me: string, w: World, minted: map<Token, CreateKey>)
    requires Inv(me, w) && forall t <- w.minted :: t in minted && minted[t] == w.minted[t]
    ensures Inv(me, w.(minted := minted))
  {
  }

  lemma ServerOnlyAdds(before: map<Token, CreateKey>, after: map<Token, CreateKey>, asked: Option<CreateKey>,
                       outcome: CreateOutcome)
    requires ServerReacts(before, after, asked, outcome)
    ensures forall t <- before :: t in after && after[t] == before[t]
  {
  }

  lemma EstablishedHeld(me: string, st: State, st': State, held: set<Held>, minted: map<Token, CreateKey>, token: Token)
    requires HeldInv(me, st, held, minted) && OneSessionPerEpoch(held) && Vacant(st)
             && OnlyCounts(st.(token := token), st')
    requires token != "" && token in minted && minted[token].sessionId == me && minted[token].recovery == st.recoverySeq
    ensures HeldInv(me, st', held + {Held(st'.epoch, token)}, minted)
    ensures OneSessionPerEpoch(held + {Held(st'.epoch, token)})
  {
  }

  lemma BornNext(st: State, st': State, held: set<Held>, generations: seq<Generation>, minted: map<Token, CreateKey>,
                 g: Generation)
    requires GenerationsInv(st, generations, held, minted) && !Vacant(st')
    requires g.token != "" && g.token in minted && minted[g.token].recovery == g.recovery
             == st'.recoverySeq >= st.recoverySeq
    requires Vacant(st) || g.recovery > st.recoverySeq
    ensures GenerationsInv(st', generations + [g], held + {Held(st'.epoch, g.token)}, minted)
  {
    HeldAreBorn(held, generations, st'.epoch, g);
  }

  /** A vacant record receives a token created under its own recovery number. */
  lemma Establishes(me: string, w: World, key: CreateKey, token: Token, st: State)
    requires Inv(me, w) && w.disk.Some? && Vacant(w.disk.value)
    requires token != "" && token in w.minted && w.minted[token] == key
    requires key.sessionId == me && key.recovery == w.disk.value.recoverySeq
    requires OnlyCounts(w.disk.value.(token := token), st)
    ensures Inv(me, w.(disk := Some(st), held := w.held + {Held(st.epoch, token)},
                       generations := w.generations + [Generation(token, key.recovery)]))
  {
    EstablishedHeld(me, w.disk.value, st, w.held, w.minted, token);
    BornNext(w.disk.value, st, w.held, w.generations, w.minted, Generation(token, key.recovery));
  }

  /** A replacement: next recovery number, next epoch, empty registry. */
  lemma Replaces(me: string, w: World, key: CreateKey, token: Token, st: State)
    requires Inv(me, w) && w.disk.Some? && !w.disk.value.authFailed
    requires token != "" && token in w.minted && w.minted[token] == key
    requires key.sessionId == me && key.recovery == w.disk.value.recoverySeq + 1
    requires st == w.disk.value.(token := token, recoverySeq := key.recovery, epoch := w.disk.value.epoch + 1,
                                 registry := map[], registrySeq := map[])
    ensures Inv(me, w.(disk := Some(st), held := w.held + {Held(st.epoch, token)},
                       generations := w.generations + [Generation(token, key.recovery)]))
    ensures forall h <- w.held :: h.token != token
  {
    ReplacedHeld(me, w.disk.value, st, w.held, w.minted, token);
    BornNext(w.disk.value, st, w.held, w.generations, w.minted, Generation(token, key.recovery));
  }

  lemma ReplacedHeld(me: string, st: State, st': State, held: set<Held>, minted: map<Token, CreateKey>, token: Token)
    requires HeldInv(me, st, held, minted) && OneSessionPerEpoch(held)
    requires st'.token == token && st'.recoverySeq == st.recoverySeq + 1 && st'.epoch == st.epoch + 1
    requires token != "" && token in minted && minted[token].sessionId == me
             && minted[token].recovery == st'.recoverySeq
    ensures HeldInv(me, st', held + {Held(st'.epoch, token)}, minted)
    ensures OneSessionPerEpoch(held + {Held(st'.epoch, token)})
    ensures forall h <- held :: h.token != token
  {
  }

  /** The latch keeps the epoch, drops the token; a rejected recovery also keeps its number. */
  lemma Latches(me: string, w: World, st: State)
    requires Inv(me, w) && w.disk.Some?
    requires st == LatchTarget(w.disk.value).(recoverySeq := st.recoverySeq)
             && st.recoverySeq >= w.disk.value.recoverySeq
    ensures Inv(me, w.(disk := Some(st), held := w.held + {Held(st.epoch, "")}))
  {
  }

  lemma Resets(me: string, w: World)
    requires Inv(me, w) && w.disk.Some?
    ensures var st := ResetTarget(w.disk.value);
            Inv(me, w.(disk := Some(st), held := w.held + {Held(st.epoch, "")}))
  {
  }

  lemma {:induction false} MergeRecords(st: State, delta: seq<SourceToken>)
    ensures var merged := Merge(st, delta);
            && merged.registry.Keys == st.registry.Keys + (set d | d in delta :: d.source)
            && (st.registry.Keys == st.registrySeq.Keys ==> merged.registry.Keys == merged.registrySeq.Keys)
            && forall source <- merged.registry ::
                 (source in st.registry && merged.registry[source] == st.registry[source])
                 || SourceToken(source, merged.registry[source]) in delta
  {
    if delta != [] {
      var n := |delta| - 1;
      MergeRecords(st, delta[..n]);
      assert delta == delta[..n] + [delta[n]];
    }
  }

  lemma MergesRegistry(st: State, token: Token, delta: seq<SourceToken>, log: set<Recorded>, added: set<Recorded>)
    requires RegistryInv(st, log) && st.token == token != ""
    requires added == set d | d in delta :: Recorded(st.epoch, token, d.source, d.token)
    ensures RegistryInv(Merge(st, delta), log + added)
  {
    MergeRecords(st, delta);
    var merged := Merge(st, delta);
    forall source <- merged.registry
      ensures exists r <- log + added :: r.epoch == st.epoch && r.source == source && r.value == merged.registry[source]
    {
      if source in st.registry && merged.registry[source] == st.registry[source] {
        var r :| r in log && r.epoch == st.epoch && r.source == source && r.value == st.registry[source];
        assert r in log + added;
      } else {
        assert Recorded(st.epoch, token, source, merged.registry[source]) in added;
      }
    }
  }

  lemma Merges(me: string, w: World, token: Token, delta: seq<SourceToken>)
    requires Inv(me, w) && w.disk.Some? && w.disk.value.token == token != ""
    ensures Inv(me, w.(disk := Some(Merge(w.disk.value, delta)),
                       log := w.log + set d | d in delta :: Recorded(w.disk.value.epoch, token, d.source, d.token)))
  {
    var added := set d | d in delta :: Recorded(w.disk.value.epoch, token, d.source, d.token);
    MergesRegistry(w.disk.value, token, delta, w.log, added);
    SameButRegistry(me, w.disk.value, Merge(w.disk.value, delta), w.held, w.generations, w.minted);
    assert LogInv(w.log + added, w.held);
  }

  /** The registry takes no part in what is known of sessions and their keys. */
  lemma SameButRegistry(me: string, st: State, st': State, held: set<Held>, generations: seq<Generation>,
                        minted: map<Token, CreateKey>)
    requires st' == st.(registry := st'.registry, registrySeq := st'.registrySeq)
    requires HeldInv(me, st, held, minted) && GenerationsInv(st, generations, held, minted)
    ensures HeldInv(me, st', held, minted) && GenerationsInv(st', generations, held, minted)
  {
  }

  /** The new session is among the generations, and the old ones still are. */
  lemma HeldAreBorn(held: set<Held>, generations: seq<Generation>, epoch: nat, g: Generation)
    requires forall h <- held | h.token != "" :: exists i :: 0 <= i < |generations| && generations[i].token == h.token
    ensures forall h <- held + {Held(epoch, g.token)} | h.token != "" ::
              exists i :: 0 <= i < |generations + [g]| && (generations + [g])[i].token == h.token
  {
    var gens := generations + [g];
    forall h <- held + {Held(epoch, g.token)} | h.token != ""
      ensures exists i :: 0 <= i < |gens| && gens[i].token == h.token
    {
      if h.token == g.token {
        assert gens[|generations|].token == g.token;
      } else {
        var i :| 0 <= i < |generations| && generations[i].token == h.token;
        assert gens[i].token == h.token;
      }
    }
  }

  /** A successful `Ensure` hands out the number that has just been written. */
  lemma Issues(me: string, w: World)
    requires Inv(me, w) && w.disk.Some? && w.disk.value.token != ""
    requires forall i | 0 <= i < |w.issued| :: w.issued[i].seqNo < w.disk.value.seqNo
    ensures Inv(me, w.(issued := w.issued + [Issue(w.disk.value.token, w.disk.value.seqNo)]))
  {
    assert Held(w.disk.value.epoch, w.disk.value.token) in w.held;
  }

  // ----- Every step keeps the invariant

  /** `Ensure` does not distinguish a missing record from a fresh one. */
  lemma MissingIsFresh(me: string, env: Env)
    ensures var none, seeded: Option<State> := None, Some(NewState(me));
            && Usable(none, me, env) == Usable(seeded, me, env)
            && EnsureTarget(none, me, env) == EnsureTarget(seeded, me, env)
            && EnsureReplies(none, me, env) == EnsureReplies(seeded, me, env)
            && EnsureCreates(none, me, env) == EnsureCreates(seeded, me, env)
  {
  }

  /** Nothing written, nothing handed out, nothing born. */
  lemma EnsureIdle(me: string, w: World, client: string, env: Env, w': World)
    requires Next(me, w, Ensure(client, env), w')
    requires EnsureTarget(w.disk, me, env).None? || env.save == SaveFailed
    requires w.disk.Some? ==> Held(w.disk.value.epoch, w.disk.value.token) in w.held
    ensures w' == w.(minted := w'.minted)
  {
    assert w.generations + [] == w.generations && w.issued + [] == w.issued;
  }

  lemma EnsureKeeps(me: string, w: World, client: string, env: Env, w': World)
    requires Inv(me, w) && Next(me, w, Ensure(client, env), w')
    ensures Inv(me, w')
  {
    var asked := Asked(w, me, Ensure(client, env));
    ServerOnlyAdds(w.minted, w'.minted, asked, env.create);
    Mints(me, w, w'.minted);
    var w1 := w.(minted := w'.minted);
    var target := EnsureTarget(w.disk, me, env);
    if target.None? || env.save == SaveFailed {
      EnsureIdle(me, w, client, env, w');
    } else {
      FreshRecord(me, w1);
      MissingIsFresh(me, env);
      EnsureWrites(me, WithRecord(w1, me), asked, client, env, target.value, w');
    }
  }

  /** The step once the record is known to exist and the save to succeed. */
  lemma EnsureWrites(me: string, w: World, asked: Option<CreateKey>, client: string, env: Env, st: State, w': World)
    requires Inv(me, w) && w.disk.Some?
    requires EnsureTarget(w.disk, me, env) == Some(st) && env.save != SaveFailed
    requires asked == if EnsureCreates(w.disk, me, env) then Some(EnsureKey(w.disk, me, client)) else None
    requires asked.Some? && env.create.Created? ==>
               env.create.token != "" && env.create.token in w.minted && w.minted[env.create.token] == asked.value
    requires w' == w.(disk := Some(st), held := w.held + {Held(st.epoch, st.token)},
                      generations := w.generations + Born(asked, env), issued := w.issued + IssuedBy(w, me, env))
    ensures Inv(me, w')
  {
    var before := w.disk.value;
    var w1 := w.(disk := Some(st), held := w'.held, generations := w'.generations);
    assert w.generations + [] == w.generations && w.issued + [] == w.issued;
    if before.token != "" {
      Counts(me, w, st);
      assert w1 == w.(disk := Some(st));
    } else if asked.Some? && env.create.Created? {
      Establishes(me, w, asked.value, env.create.token, st);
    } else if st.authFailed {
      Latches(me, w, st);
      assert w1 == w.(disk := Some(st), held := w.held + {Held(st.epoch, "")});
    } else {
      Counts(me, w, st);
      assert w1 == w.(disk := Some(st));
    }
    assert Inv(me, w1);
    if IssuedBy(w, me, env) != [] {
      Issues(me, w1);
    } else {
      assert w' == w1;
    }
  }

  lemma RecoverKeeps(me: string, w: World, client: string, failed: Token, env: Env, w': World)
    requires Inv(me, w) && Next(me, w, Recover(client, failed, env), w')
    ensures Inv(me, w')
  {
    var asked := Asked(w, me, Recover(client, failed, env));
    ServerOnlyAdds(w.minted, w'.minted, asked, env.create);
    Mints(me, w, w'.minted);
    var w1 := w.(minted := w'.minted);
    assert w.generations + [] == w.generations;
    if asked.None? || env.create == CreateFailed || env.save == SaveFailed {
      assert w' == w1;
    } else {
      FreshRecord(me, w1);
      RecoverWrites(me, WithRecord(w1, me), asked.value, env, w');
    }
  }

  /** The step once a replacement has been asked for and the outcome is written. */
  lemma RecoverWrites(me: string, w: World, key: CreateKey, env: Env, w': World)
    requires Inv(me, w) && w.disk.Some? && !w.disk.value.authFailed
    requires key.sessionId == me && key.recovery == w.disk.value.recoverySeq + 1
    requires env.create != CreateFailed && env.save != SaveFailed
    requires env.create.Created? ==>
               env.create.token != "" && env.create.token in w.minted && w.minted[env.create.token] == key
    requires w'.disk == RecoverDisk(w.disk, me, w.disk.value.token, env.(lockOk := true, loadOk := true))
    requires w' == w.(disk := w'.disk, held := Observe(w.held, w'.disk),
             generations := w.generations + Born(Some(key), env))
    ensures Inv(me, w')
  {
    if env.create.Created? {
      Replaces(me, w, key, env.create.token, w'.disk.value);
    } else {
      assert w.generations + [] == w.generations;
      Latches(me, w, w'.disk.value);
    }
  }

  lemma RecordKeeps(me: string, w: World, token: Token, delta: seq<SourceToken>, env: Env, w': World)
    requires Inv(me, w) && Next(me, w, Record(token, delta, env), w')
    ensures Inv(me, w')
  {
    if delta != [] && StillHolds(w.disk, me, token, env) && env.save != SaveFailed {
      var i :| 0 <= i < |w.issued| && w.issued[i].token == token;
      Merges(me, w, token, delta);
      assert w'.held == w.held;
    } else {
      assert w' == w;
    }
  }

  lemma LatchKeeps(me: string, w: World, env: Env, w': World)
    requires Inv(me, w) && Next(me, w, Latch(env), w')
    ensures Inv(me, w')
  {
    if Usable(w.disk, me, env) && env.save != SaveFailed {
      FreshRecord(me, w);
      Latches(me, WithRecord(w, me), LatchTarget(Opened(w.disk, me)));
    } else {
      assert w' == w;
    }
  }

  lemma ResetKeeps(me: string, w: World, env: Env, w': World)
    requires Inv(me, w) && Next(me, w, Reset(env), w')
    ensures Inv(me, w')
  {
    if Usable(w.disk, me, env) && w.disk.Some? && env.save != SaveFailed {
      Resets(me, w);
    } else {
      assert w' == w;
    }
  }

  /** Generation safety, step by step. */
  lemma NextKeeps(me: string, w: World, step: Step, w': World)
    requires Inv(me, w) && Next(me, w, step, w')
    ensures Inv(me, w')
  {
    match step
    case Ensure(client, env) => EnsureKeeps(me, w, client, env, w');
    case Record(token, delta, env) => RecordKeeps(me, w, token, delta, env, w');
    case Latch(env) => LatchKeeps(me, w, env, w');
    case Recover(client, failed, env) => RecoverKeeps(me, w, client, failed, env, w');
    case Reset(env) => ResetKeeps(me, w, env, w');
    case MintElsewhere(key, token) => Mints(me, w, w'.minted);
  }

  // ----- Runs

  ghost predicate Run(me: string, ws: seq<World>, steps: seq<Step>) {
    && |ws| == |steps| + 1 && ws[0] == START
    && forall i | 0 <= i < |steps| :: Next(me, ws[i], steps[i], ws[i + 1])
  }

  lemma {:induction false} RunInv(me: string, ws: seq<World>, steps: seq<Step>, i: nat)
    requires Run(me, ws, steps) && i < |ws|
    ensures Inv(me, ws[i])
  {
    if i > 0 {
      RunInv(me, ws, steps, i - 1);
      NextKeeps(me, ws[i - 1], steps[i - 1], ws[i]);
    }
  }

  /** What every reachable record guarantees. */
  lemma GenerationSafety(me: string, ws: seq<World>, steps: seq<Step>, i: nat)
    requires Run(me, ws, steps) && i < |ws|
    ensures OneSessionPerEpoch(ws[i].held)
    ensures ws[i].disk.Some? ==>
              var st := ws[i].disk.value;
              && (Vacant(st) ==> st.registry == map[])
              && (st.token != "" ==>
                    forall source <- st.registry ::
                      Recorded(st.epoch, st.token, source, st.registry[source]) in ws[i].log)
  {
    RunInv(me, ws, steps, i);
    if ws[i].disk.Some? {
      var st := ws[i].disk.value;
      if st.token != "" {
        forall source <- st.registry
          ensures Recorded(st.epoch, st.token, source, st.registry[source]) in ws[i].log
        {
          var r :| r in ws[i].log && r.epoch == st.epoch && r.source == source && r.value == st.registry[source];
          assert Held(r.epoch, r.token) in ws[i].held;
        }
      }
    }
  }

  /** No two successful `Ensure` calls of a run return the same number. */
  lemma SequenceNumbersUnique(me: string, ws: seq<World>, steps: seq<Step>, n: nat, i: nat, j: nat)
    requires Run(me, ws, steps) && n < |ws| && i < j < |ws[n].issued|
    ensures ws[n].issued[i].seqNo < ws[n].issued[j].seqNo
  {
    RunInv(me, ws, steps, n);
  }

  /** The create keys of successive persisted sessions strictly increase, so no session comes back. */
  lemma GenerationsIncrease(me: string, ws: seq<World>, steps: seq<Step>, n: nat, i: nat, j: nat)
    requires Run(me, ws, steps) && n < |ws| && i < j < |ws[n].generations|
    ensures ws[n].generations[i].recovery < ws[n].generations[j].recovery
    ensures ws[n].generations[i].token != ws[n].generations[j].token
  {
    RunInv(me, ws, steps, n);
  }

  lemma LatestIsNew(st: State, generations: seq<Generation>, held: set<Held>, minted: map<Token, CreateKey>, k: nat,
                    before: set<Held>)
    requires GenerationsInv(st, generations, held, minted) && k < |generations|
    requires forall h <- before | h.token != "" :: exists i :: 0 <= i < k && generations[i].token == h.token
    ensures generations[k].token != "" && forall h <- before :: h.token != generations[k].token
  {
    forall h <- before | h.token != ""
      ensures h.token != generations[k].token
    {
      var i :| 0 <= i < k && generations[i].token == h.token;
      assert generations[i].recovery < generations[k].recovery;
    }
  }

  lemma HeldAreGenerations(me: string, w: World)
    requires Inv(me, w)
    ensures forall h <- w.held | h.token != "" ::
            exists i :: 0 <= i < |w.generations| && w.generations[i].token == h.token
  {
  }

  lemma GenerationsGrow(me: string, w: World, step: Step, w': World)
    requires Next(me, w, step, w')
    ensures |w.generations| <= |w'.generations| && w'.generations[..|w.generations|] == w.generations
    ensures w'.disk.None? ==> w'.generations == w.generations
  {
  }

  /** A create that is persisted never returns a token that any record held before. */
  lemma ReplacementIsNew(me: string, ws: seq<World>, steps: seq<Step>, n: nat)
    requires Run(me, ws, steps) && n < |steps|
    requires |ws[n + 1].generations| > |ws[n].generations|
    ensures var reborn := ws[n + 1].generations[|ws[n].generations|].token;
            && reborn != "" && forall h <- ws[n].held :: h.token != reborn
  {
    RunInv(me, ws, steps, n);
    RunInv(me, ws, steps, n + 1);
    var w, w' := ws[n], ws[n + 1];
    GenerationsGrow(me, w, steps[n], w');
    HeldAreGenerations(me, w);
    forall h <- w.held | h.token != ""
      ensures exists i :: 0 <= i < |w.generations| && w'.generations[i].token == h.token
    {
      var i :| 0 <= i < |w.generations| && w.generations[i].token == h.token;
      assert w'.generations[i] == w.generations[i];
    }
    LatestIsNew(w'.disk.value, w'.generations, w'.held, w'.minted, |w.generations|, w.held);
  }

  /** A create for a replacement never answers with the dead token, persisted or not. */
  lemma RecoveryNeverResumes(me: string, ws: seq<World>, steps: seq<Step>, n: nat)
    requires Run(me, ws, steps) && n < |steps| && steps[n].Recover? && steps[n].env.create.Created?
    requires Asked(ws[n], me, steps[n]).Some?
    ensures steps[n].env.create.token != steps[n].failedToken
    ensures forall h <- ws[n].held :: h.token != steps[n].env.create.token
  {
    RunInv(me, ws, steps, n);
    assert Next(me, ws[n], steps[n], ws[n + 1]);
  }

  /** Neither does the first create after a `Reset`. */
  lemma EstablishNeverResumes(me: string, ws: seq<World>, steps: seq<Step>, n: nat)
    requires Run(me, ws, steps) && n < |steps| && steps[n].Ensure? && steps[n].env.create.Created?
    requires Asked(ws[n], me, steps[n]).Some?
    ensures forall h <- ws[n].held :: h.token != steps[n].env.create.token
  {
    RunInv(me, ws, steps, n);
    assert Next(me, ws[n], steps[n], ws[n + 1]);
  }

  /** Once latched, a record stays latched until `Reset`; meanwhile nothing is handed out and no session is created. */
  lemma {:induction false} LatchIsTerminal(me: string, ws: seq<World>, steps: seq<Step>, i: nat, j: nat)
    requires Run(me, ws, steps) && i <= j < |ws|
    requires ws[i].disk.Some? && ws[i].disk.value.authFailed
    requires forall k | i <= k < j :: !steps[k].Reset?
    ensures ws[j].disk.Some? && ws[j].disk.value.authFailed
    ensures ws[j].issued == ws[i].issued && ws[j].generations == ws[i].generations
  {
    if i < j {
      LatchIsTerminal(me, ws, steps, i, j - 1);
      assert Next(me, ws[j - 1], steps[j - 1], ws[j]);
    }
  }
}
