/**
 The on-disk record of one harness conversation and the effect of every locked method on it
 (internal/adapter/session/manager.go, internal/adapter/session/store.go).

 Whatever a method cannot decide itself (locks, loads, the clock, CALM's answers, whether a save
 reaches the disk) is part of its environment.
 */
module CaptureState {
  import opened Wrappers

  /** The empty string stands for "no session". */
  type Token = string

  datatype State = State(
    sessionId: string,
    token: Token,
    recoverySeq: nat,
    seqNo: nat,
    epoch: nat,
    authFailed: bool,
    nextAttempt: int,
    registry: map<string, string>,
    registrySeq: map<string, nat>)

  function NewState(sessionId: string): State {
    State(sessionId, "", 0, 0, 0, false, 0, map[], map[])
  }

  /** The create-idempotency key `<base>-r<recovery>`; the base is derived from the session id. */
  datatype CreateKey = CreateKey(client: string, sessionId: string, recovery: nat)

  datatype RegisterOutcome = Registered | RegisterRejected | RegisterFailed

  datatype CreateOutcome = Created(token: Token) | CreateRejected | CreateFailed

  /** A save replaces the whole file or leaves it alone; the process may die after a save it never reports. */
  datatype SaveOutcome = Saved | SaveFailed | SavedThenDied

  datatype Env = Env(
    lockOk: bool,
    loadOk: bool,
    now: int,
    register: RegisterOutcome,
    create: CreateOutcome,
    save: SaveOutcome)

  datatype Reason = AuthFailed | CalmUnreachable | CaptureFailed | SessionLost

  datatype SourceToken = SourceToken(source: string, token: string)

  const ESTABLISH_RETRY_INTERVAL := 60

  // ----- Loading and saving

  /** The record a method works on: the stored one, or a freshly seeded one. */
  function Opened(disk: Option<State>, me: string): State {
    if disk.Some? then disk.value else NewState(me)
  }

  /** Lock, load and ownership check all went well. */
  predicate Usable(disk: Option<State>, me: string, env: Env) {
    env.lockOk && env.loadOk && (disk.Some? ==> disk.value.sessionId == me)
  }

  function Persisted(disk: Option<State>, next: State, save: SaveOutcome): Option<State> {
    if save == SaveFailed then disk else Some(next)
  }

  /** No attempt before the recorded time; a time that the clock could not have led to yet counts for nothing. */
  predicate Throttled(st: State, now: int) {
    now < st.nextAttempt && st.nextAttempt <= now + ESTABLISH_RETRY_INTERVAL
  }

  // ----- Ensure

  datatype EnsureReply =
    | Allocated(token: Token, seqNo: nat)
    | Degraded(reason: Reason)
    | NoReply

  /** Does `Ensure` ask CALM for a session, and under which key? */
  predicate EnsureCreates(disk: Option<State>, me: string, env: Env) {
    var st := Opened(disk, me);
    Usable(disk, me, env) && !st.authFailed && st.token == "" && !Throttled(st, env.now) && env.register == Registered
  }

  function EnsureKey(disk: Option<State>, me: string, client: string): CreateKey {
    CreateKey(client, me, Opened(disk, me).recoverySeq)
  }

  /** The record `Ensure` tries to save, if any. */
  function EnsureTarget(disk: Option<State>, me: string, env: Env): Option<State> {
    var st := Opened(disk, me);
    if !Usable(disk, me, env) || st.authFailed then None
    else if st.token != "" then Some(st.(seqNo := st.seqNo + 1))
    else if Throttled(st, env.now) then None
    else
      var retryLater := st.(nextAttempt := env.now + ESTABLISH_RETRY_INTERVAL);
      match env.register
      case RegisterRejected => Some(st.(authFailed := true))
      case RegisterFailed => Some(retryLater)
      case Registered =>
        match env.create
        case Created(token) => Some(st.(token := token, nextAttempt := 0, seqNo := st.seqNo + 1))
        case CreateRejected => Some(st.(authFailed := true, token := ""))
        case CreateFailed => Some(retryLater)
  }

  function EnsureDisk(disk: Option<State>, me: string, env: Env): Option<State> {
    var target := EnsureTarget(disk, me, env);
    if target.None? then disk else Persisted(disk, target.value, env.save)
  }

  /** A sequence number is handed out exactly when the record that counts it is on disk. */
  function EnsureReplies(disk: Option<State>, me: string, env: Env): EnsureReply {
    var st := Opened(disk, me);
    var target := EnsureTarget(disk, me, env);
    if !Usable(disk, me, env) then Degraded(CaptureFailed)
    else if st.authFailed then Degraded(AuthFailed)
    else if target.None? then Degraded(CalmUnreachable)
    else if env.save == SavedThenDied then NoReply
    else if target.value.seqNo > st.seqNo then
      if env.save == Saved then Allocated(target.value.token, target.value.seqNo) else Degraded(CaptureFailed)
    else if target.value.authFailed then Degraded(AuthFailed)
    else Degraded(CalmUnreachable)
  }

  // ----- Record

  function Merge(st: State, delta: seq<SourceToken>): (r: State)
    ensures r == st.(registry := r.registry, registrySeq := r.registrySeq)
  {
    if delta == [] then st else
      var n := |delta| - 1;
      var before := Merge(st, delta[..n]);
      before.(registry := before.registry[delta[n].source := delta[n].token],
              registrySeq := before.registrySeq[delta[n].source := st.seqNo])
  }

  /** `Record` and `Enqueue` act only on an existing record that still holds the caller's token. */
  predicate StillHolds(disk: Option<State>, me: string, token: Token, env: Env) {
    Usable(disk, me, env) && disk.Some? && disk.value.token == token
  }

  function RecordDisk(disk: Option<State>, me: string, token: Token, delta: seq<SourceToken>, env: Env): Option<State> {
    if delta != [] && StillHolds(disk, me, token, env)
    then Persisted(disk, Merge(disk.value, delta), env.save)
    else disk
  }

  // ----- Call errors

  function LatchTarget(st: State): State {
    st.(authFailed := true, token := "")
  }

  function LatchDisk(disk: Option<State>, me: string, env: Env): Option<State> {
    if Usable(disk, me, env) then Persisted(disk, LatchTarget(Opened(disk, me)), env.save) else disk
  }

  /** Does `recover` ask CALM for a replacement? */
  predicate RecoverCreates(disk: Option<State>, me: string, failedToken: Token, env: Env) {
    Usable(disk, me, env) && !Opened(disk, me).authFailed && Opened(disk, me).token == failedToken
  }

  function RecoverKey(disk: Option<State>, me: string, client: string): CreateKey {
    CreateKey(client, me, Opened(disk, me).recoverySeq + 1)
  }

  function RecoverDisk(disk: Option<State>, me: string, failedToken: Token, env: Env): Option<State> {
    var st := Opened(disk, me);
    if !RecoverCreates(disk, me, failedToken, env) then disk
    else
      match env.create
      case Created(token) =>
        Persisted(disk, st.(token := token, recoverySeq := st.recoverySeq + 1, epoch := st.epoch + 1,
                            registry := map[], registrySeq := map[]), env.save)
      case CreateRejected =>
        Persisted(disk, st.(recoverySeq := st.recoverySeq + 1, authFailed := true, token := ""), env.save)
      case CreateFailed => disk
  }

  /** What `recover` reports; a process that died reports nothing. */
  function RecoverReplies(disk: Option<State>, me: string, failedToken: Token, env: Env): Option<Reason> {
    var st := Opened(disk, me);
    if !Usable(disk, me, env) then Some(CaptureFailed)
    else if st.authFailed then Some(AuthFailed)
    else if st.token != failedToken then Some(SessionLost)
    else if env.create == CreateFailed then Some(CalmUnreachable)
    else AfterSave(env.save, if env.create.Created? then SessionLost else AuthFailed)
  }

  function AfterSave(save: SaveOutcome, reason: Reason): Option<Reason> {
    match save
    case Saved => Some(reason)
    case SaveFailed => Some(CaptureFailed)
    case SavedThenDied => None
  }

  // ----- Reset

  function ResetTarget(st: State): State {
    st.(authFailed := false, token := "", nextAttempt := 0, recoverySeq := st.recoverySeq + 1,
        epoch := st.epoch + 1, registry := map[], registrySeq := map[])
  }

  function ResetDisk(disk: Option<State>, me: string, env: Env): Option<State> {
    if Usable(disk, me, env) && disk.Some? then Persisted(disk, ResetTarget(disk.value), env.save) else disk
  }

  // ----- What callers can rely on

  predicate Works(disk: Option<State>, me: string, env: Env) {
    Usable(disk, me, env) && env.save == Saved
  }

  /** While there is a session, every call that works hands it out with the next number, and counts it. */
  lemma SessionIsHandedOut(disk: Option<State>, me: string, env: Env)
    requires disk.Some? && Works(disk, me, env) && !disk.value.authFailed && disk.value.token != ""
    ensures EnsureReplies(disk, me, env) == Allocated(disk.value.token, disk.value.seqNo + 1)
    ensures EnsureDisk(disk, me, env) == Some(disk.value.(seqNo := disk.value.seqNo + 1))
  {
  }

  /** The first call for which CALM is there creates the session and hands it out. */
  lemma FirstUseCreates(disk: Option<State>, me: string, env: Env)
    requires Works(disk, me, env) && !Opened(disk, me).authFailed && Opened(disk, me).token == ""
    requires !Throttled(Opened(disk, me), env.now) && env.register == Registered && env.create.Created?
    ensures var st := Opened(disk, me);
            && EnsureReplies(disk, me, env) == Allocated(env.create.token, st.seqNo + 1)
            && EnsureDisk(disk, me, env)
               == Some(st.(token := env.create.token, seqNo := st.seqNo + 1, nextAttempt := 0))
  {
  }

  /** An attempt that CALM did not answer. */
  predicate Unanswered(env: Env) {
    env.register == RegisterFailed || (env.register == Registered && env.create == CreateFailed)
  }

  /**
   For a minute after an unanswered attempt nothing is tried, outside that minute it is, even if the clock was set back.
   */
  lemma TriedAgainIff(disk: Option<State>, me: string, first: Env, later: Env)
    requires Usable(disk, me, first) && !Opened(disk, me).authFailed && Opened(disk, me).token == ""
    requires !Throttled(Opened(disk, me), first.now) && Unanswered(first) && first.save != SaveFailed
    requires later.lockOk && later.loadOk && later.register == Registered
    ensures var disk' := EnsureDisk(disk, me, first);
            && (EnsureCreates(disk', me, later) <==> !(first.now <= later.now < first.now + 60))
            && (first.now <= later.now < first.now + 60 ==>
                  EnsureDisk(disk', me, later) == disk' && EnsureReplies(disk', me, later) == Degraded(CalmUnreachable))
  {
  }

  /** A latched record refuses, whatever CALM would say. */
  lemma LatchedRefuses(disk: Option<State>, me: string, env: Env, later: Env)
    requires Usable(disk, me, env) && env.save != SaveFailed && later.lockOk && later.loadOk
    ensures var disk' := LatchDisk(disk, me, env);
            && disk'.Some? && disk'.value.authFailed && disk'.value.token == ""
            && EnsureReplies(disk', me, later) == Degraded(AuthFailed) && EnsureDisk(disk', me, later) == disk'
            && !EnsureCreates(disk', me, later)
  {
  }

  /** Credentials or a create that CALM turns down. */
  predicate Rejected(env: Env) {
    env.register == RegisterRejected || (env.register == Registered && env.create == CreateRejected)
  }

  /**
   A rejection latches, whether CALM rejects the client, a first create or a replacement; the caller is told, if the
   record could be saved, and nobody asks again.
   */
  lemma RejectionLatches(disk: Option<State>, me: string, env: Env, later: Env)
    requires Usable(disk, me, env) && !Opened(disk, me).authFailed && later.lockOk && later.loadOk
    requires env.save != SaveFailed
    requires Opened(disk, me).token == "" ==> !Throttled(Opened(disk, me), env.now)
    ensures Opened(disk, me).token == "" && Rejected(env) ==>
              var disk' := EnsureDisk(disk, me, env);
              && disk'.Some? && disk'.value.authFailed && disk'.value.token == ""
              && (env.save == Saved ==> EnsureReplies(disk, me, env) == Degraded(AuthFailed))
              && !EnsureCreates(disk', me, later) && EnsureReplies(disk', me, later) == Degraded(AuthFailed)
    ensures env.create == CreateRejected ==>
              var failed := Opened(disk, me).token;
              var disk' := RecoverDisk(disk, me, failed, env);
              && disk'.Some? && disk'.value.authFailed && disk'.value.token == ""
              && (env.save == Saved ==> RecoverReplies(disk, me, failed, env) == Some(AuthFailed))
              && !EnsureCreates(disk', me, later) && EnsureReplies(disk', me, later) == Degraded(AuthFailed)
  {
  }

  /** Without a saved record nothing has happened, and nobody is told that something had. */
  lemma WithoutASaveNothing(disk: Option<State>, me: string, token: Token, delta: seq<SourceToken>, env: Env)
    requires env.save == SaveFailed || !Usable(disk, me, env)
    ensures EnsureDisk(disk, me, env) == RecordDisk(disk, me, token, delta, env) == LatchDisk(disk, me, env)
            == RecoverDisk(disk, me, token, env) == ResetDisk(disk, me, env) == disk
    ensures EnsureReplies(disk, me, env).Degraded?
    ensures RecoverReplies(disk, me, token, env) == Some(SessionLost) ==> Opened(disk, me).token != token
  {
  }

  /**
   After a saved replacement the new session is the one handed out, with the next number, and nothing is registered.
   */
  lemma ReplacementIsHandedOut(disk: Option<State>, me: string, failed: Token, env: Env, later: Env)
    requires RecoverCreates(disk, me, failed, env) && env.create.Created? && env.create.token != ""
    requires env.save != SaveFailed && later.lockOk && later.loadOk && later.save == Saved
    ensures var disk' := RecoverDisk(disk, me, failed, env);
            && disk'.Some? && disk'.value.registry == map[] && disk'.value.registrySeq == map[]
            && EnsureReplies(disk', me, later) == Allocated(env.create.token, Opened(disk, me).seqNo + 1)
            && (env.save == Saved ==> RecoverReplies(disk, me, failed, env) == Some(SessionLost))
  {
  }

  /** Somebody who comes late with the dead token changes nothing and is told the session is gone. */
  lemma LateRecoveryChangesNothing(disk: Option<State>, me: string, failed: Token, env: Env)
    requires Usable(disk, me, env) && !Opened(disk, me).authFailed && Opened(disk, me).token != failed
    ensures RecoverDisk(disk, me, failed, env) == disk && RecoverReplies(disk, me, failed, env) == Some(SessionLost)
    ensures !RecoverCreates(disk, me, failed, env)
  {
  }

  /** A saved `Reset` makes room for a new session at once, under the next number. */
  lemma ResetReopens(disk: Option<State>, me: string, env: Env, later: Env)
    requires disk.Some? && Usable(disk, me, env) && env.save != SaveFailed
    requires later.lockOk && later.loadOk && later.register == Registered
    requires 0 <= later.now
    ensures var disk' := ResetDisk(disk, me, env);
            && disk'.Some? && disk'.value.registry == map[] && disk'.value.seqNo == disk.value.seqNo
            && EnsureCreates(disk', me, later) && EnsureKey(disk', me, "").recovery == disk.value.recoverySeq + 1
  {
  }

  /** Position `i` is where the delta last speaks of the source. */
  ghost predicate LastOf(delta: seq<SourceToken>, source: string, i: nat) {
    i < |delta| && delta[i].source == source && forall k | i < k < |delta| :: delta[k].source != source
  }

  /** A merge registers the last token of every source it speaks of, stamped with the current number. */
  lemma {:induction false} MergeWritesLast(st: State, delta: seq<SourceToken>, source: string, i: nat)
    requires LastOf(delta, source, i)
    ensures var merged := Merge(st, delta);
            && source in merged.registry && merged.registry[source] == delta[i].token
            && source in merged.registrySeq && merged.registrySeq[source] == st.seqNo
  {
    var n := |delta| - 1;
    if i < n {
      assert LastOf(delta[..n], source, i);
      MergeWritesLast(st, delta[..n], source, i);
    }
  }

  /** Sources it does not speak of keep what they have. */
  lemma {:induction false} MergeLeavesOthers(st: State, delta: seq<SourceToken>, source: string)
    requires forall d <- delta :: d.source != source
    ensures var merged := Merge(st, delta);
            && (source in merged.registry <==> source in st.registry)
            && (source in st.registry ==> merged.registry[source] == st.registry[source])
            && (source in merged.registrySeq <==> source in st.registrySeq)
            && (source in st.registrySeq ==> merged.registrySeq[source] == st.registrySeq[source])
  {
    if delta != [] {
      MergeLeavesOthers(st, delta[..|delta| - 1], source);
    }
  }

  // ----- The event spool

  datatype Line = Line(id: nat, epoch: nat, token: Token, events: seq<string>)

  /** One line of the file; `ended` says whether its newline was written. */
  datatype SpoolEntry = Parsed(line: Line, ended: bool) | Unparseable(ended: bool)

  /** A write may go through, stop just before the newline, stop earlier, or not start. */
  datatype AppendOutcome = Appended | WithoutNewline | Torn | NotWritten

  function EntryFor(line: Line, outcome: AppendOutcome): SpoolEntry
    requires !outcome.NotWritten?
  {
    match outcome
    case Appended => Parsed(line, true)
    case WithoutNewline => Parsed(line, false)
    case Torn => Unparseable(false)
  }

  /** Whatever follows an unended line runs into it, and the two together parse as nothing. */
  predicate Unended(entries: seq<SpoolEntry>) {
    entries != [] && !entries[|entries| - 1].ended
  }

  function SpoolAfter(spool: Option<seq<SpoolEntry>>, line: Line, outcome: AppendOutcome): Option<seq<SpoolEntry>> {
    var before := if spool.Some? then spool.value else [];
    if outcome.NotWritten? then spool
    else if Unended(before) then Some(before[..|before| - 1] + [Unparseable(outcome.Appended?)])
    else Some(before + [EntryFor(line, outcome)])
  }

  function Entries(spool: Option<seq<SpoolEntry>>): seq<SpoolEntry> {
    if spool.Some? then spool.value else []
  }

  /**
   What an append may do to a spool: lines that were ended stay where they are, and nothing comes before
   them; a full append behind an ended line adds exactly the new line; one behind an unended line, or one
   that does not go through, adds nothing that parses as more than what was written.
   */
  ghost predicate AppendsTo(before: seq<SpoolEntry>, after: seq<SpoolEntry>, line: Line, outcome: AppendOutcome) {
    && |before| <= |after| <= |before| + 1
    && (forall i | 0 <= i < |before| && (before[i].ended || i < |before| - 1) :: after[i] == before[i])
    && (outcome.NotWritten? ==> after == before)
    && (outcome.Appended? && (before == [] || before[|before| - 1].ended) ==> after == before + [Parsed(line, true)])
    && (outcome.WithoutNewline? && (before == [] || before[|before| - 1].ended) ==>
          after == before + [Parsed(line, false)])
    && (outcome.Torn? && (before == [] || before[|before| - 1].ended) ==> after == before + [Unparseable(false)])
    && (!outcome.NotWritten? && before != [] && !before[|before| - 1].ended ==>
          |after| == |before| && after[|after| - 1] == Unparseable(outcome.Appended?))
  }

  /** An append is an append: whatever becomes of the new line, no earlier one is lost or moved. */
  lemma AppendKeepsLines(spool: Option<seq<SpoolEntry>>, line: Line, outcome: AppendOutcome)
    ensures AppendsTo(Entries(spool), Entries(SpoolAfter(spool, line, outcome)), line, outcome)
  {
  }

  datatype SendOutcome = Delivered | NotFound | SendFailed

  /** A claimed entry is sent exactly when it parses and belongs to the epoch the drainer saw. */
  predicate Sends(entry: SpoolEntry, epoch: nat) {
    entry.Parsed? && entry.line.epoch == epoch
  }

  /** The lines a drainer passes on: in order, up to and including the first failed send. */
  function SentLines(entries: seq<SpoolEntry>, epoch: nat, outcomes: seq<SendOutcome>): seq<Line> {
    if entries == [] then []
    else if !Sends(entries[0], epoch) then SentLines(entries[1..], epoch, outcomes)
    else if outcomes == [] || outcomes[0] == SendFailed then [entries[0].line]
    else [entries[0].line] + SentLines(entries[1..], epoch, outcomes[1..])
  }

  /** Does the drainer get through the whole claim? */
  predicate Completes(entries: seq<SpoolEntry>, epoch: nat, outcomes: seq<SendOutcome>) {
    if entries == [] then true
    else if !Sends(entries[0], epoch) then Completes(entries[1..], epoch, outcomes)
    else if outcomes == [] || outcomes[0] == SendFailed then false
    else Completes(entries[1..], epoch, outcomes[1..])
  }

  // ----- What a delivery sends

  /** The lines of a claim that belong to the epoch, in order. */
  function Matching(entries: seq<SpoolEntry>, epoch: nat): seq<Line> {
    if entries == [] then []
    else
      var before, last := Matching(entries[..|entries| - 1], epoch), entries[|entries| - 1];
      if last.Parsed? && last.line.epoch == epoch then before + [last.line] else before
  }

  lemma {:induction false} MatchingFront(entries: seq<SpoolEntry>, epoch: nat)
    requires entries != []
    ensures Matching(entries, epoch) == if entries[0].Parsed? && entries[0].line.epoch == epoch
              then [entries[0].line] + Matching(entries[1..], epoch) else Matching(entries[1..], epoch)
  {
    var n := |entries| - 1;
    if n > 0 {
      MatchingFront(entries[..n], epoch);
      assert entries[..n][1..] == entries[1..][..n - 1] && entries[1..][n - 1] == entries[n];
    } else {
      assert entries[..0] == [] && entries[1..] == [];
    }
  }

  /** How many sends succeed before the first that fails; an answer that never comes counts as a failure. */
  function Successes(outcomes: seq<SendOutcome>): nat {
    if outcomes == [] || outcomes[0] == SendFailed then 0 else 1 + Successes(outcomes[1..])
  }

  lemma {:induction false} SuccessesAre(outcomes: seq<SendOutcome>)
    ensures Successes(outcomes) <= |outcomes|
    ensures forall i | 0 <= i < Successes(outcomes) :: outcomes[i] != SendFailed
    ensures Successes(outcomes) < |outcomes| ==> outcomes[Successes(outcomes)] == SendFailed
  {
    if outcomes != [] && outcomes[0] != SendFailed {
      SuccessesAre(outcomes[1..]);
    }
  }

  /** Sent are the lines of the epoch, in order, up to and including the first whose send fails; the rest is kept. */
  lemma {:induction false} SendsUpToFirstFailure(entries: seq<SpoolEntry>, epoch: nat, outcomes: seq<SendOutcome>)
    ensures var all, good := Matching(entries, epoch), Successes(outcomes);
            && SentLines(entries, epoch, outcomes) == (if good < |all| then all[..good + 1] else all)
            && (Completes(entries, epoch, outcomes) <==> |all| <= good)
  {
    if entries != [] {
      MatchingFront(entries, epoch);
      if !Sends(entries[0], epoch) {
        SendsUpToFirstFailure(entries[1..], epoch, outcomes);
      } else if outcomes != [] && outcomes[0] != SendFailed {
        SendsUpToFirstFailure(entries[1..], epoch, outcomes[1..]);
      }
    }
  }
}
