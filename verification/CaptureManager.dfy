/**
 The session manager over its directory (internal/adapter/session/manager.go, spool.go): every
 method is a load, a change and a save under the lock, proved against the effect it is specified by.
 */
module CaptureManager {
  import opened Wrappers
  import opened CaptureState

  type Pid = nat

  /** The conversation's directory: the state file, the event spool, and claimed spools by process. */
  class SessionDir {
    var state: Option<State>
    var spool: Option<seq<SpoolEntry>>
    var inflight: map<Pid, seq<SpoolEntry>>

    constructor ()
      ensures state == None && spool == None && inflight == map[]
    {
      state, spool, inflight := None, None, map[];
    }

    method Save(st: State, outcome: SaveOutcome) returns (ok: bool)
      modifies this`state
      ensures state == Persisted(old(state), st, outcome)
      ensures ok <==> outcome == Saved
    {
      if outcome != SaveFailed {
        state := Some(st);
      }
      ok := outcome == Saved;
    }

    /** Opens the file for appending and writes the line with its newline, as far as that goes. */
    method AppendSpool(line: Line, outcome: AppendOutcome)
      modifies this`spool
      ensures spool == SpoolAfter(old(spool), line, outcome)
      ensures AppendsTo(Entries(old(spool)), Entries(spool), line, outcome)
    {
      AppendKeepsLines(spool, line, outcome);
      if outcome.NotWritten? {
        return;
      }
      var entries := if spool.Some? then spool.value else [];
      var written := EntryFor(line, outcome);
      if |entries| > 0 && !entries[|entries| - 1].ended {
        entries, written := entries[..|entries| - 1], Unparseable(written.ended);
      }
      spool := Some(entries + [written]);
    }
  }

  class Manager {
    const dir: SessionDir
    const sessionId: string
    const client: string

    constructor (dir: SessionDir, sessionId: string, client: string)
      ensures this.dir == dir && this.sessionId == sessionId && this.client == client
    {
      this.dir, this.sessionId, this.client := dir, sessionId, client;
    }

    /** Hands out the session token and the next sequence number, creating the session on first use. */
    method Ensure(env: Env) returns (reply: EnsureReply, ghost asked: Option<CreateKey>)
      modifies dir`state
      ensures dir.state == EnsureDisk(old(dir.state), sessionId, env)
      ensures reply == EnsureReplies(old(dir.state), sessionId, env)
      ensures asked == if EnsureCreates(old(dir.state), sessionId, env)
                       then Some(EnsureKey(old(dir.state), sessionId, client)) else None
    {
      asked := None;
      if !env.lockOk || !env.loadOk || (dir.state.Some? && dir.state.value.sessionId != sessionId) {
        return Degraded(CaptureFailed), None;
      }
      var st := if dir.state.Some? then dir.state.value else NewState(sessionId);
      if st.authFailed {
        return Degraded(AuthFailed), None;
      }
      if st.token != "" {
        st := st.(seqNo := st.seqNo + 1);
        var ok := dir.Save(st, env.save);
        reply := Reply(ok, env.save, Allocated(st.token, st.seqNo), Degraded(CaptureFailed));
        return reply, None;
      }
      if Throttled(st, env.now) {
        return Degraded(CalmUnreachable), None;
      }
      var reason: Option<Reason>;
      st, reason, asked := Establish(st, CreateKey(client, sessionId, st.recoverySeq), env);
      if reason.Some? {
        if reason.value == CalmUnreachable {
          st := st.(nextAttempt := env.now + ESTABLISH_RETRY_INTERVAL);
        }
        var _ := dir.Save(st, env.save);
        reply := if env.save == SavedThenDied then NoReply else Degraded(reason.value);
        return reply, asked;
      }
      st := st.(nextAttempt := 0, seqNo := st.seqNo + 1);
      var ok := dir.Save(st, env.save);
      reply := Reply(ok, env.save, Allocated(st.token, st.seqNo), Degraded(CaptureFailed));
    }

    function Reply(ok: bool, save: SaveOutcome, good: EnsureReply, bad: EnsureReply): EnsureReply {
      if save == SavedThenDied then NoReply else if ok then good else bad
    }

    /** No create without a registration, or its rejection would say nothing about the credentials. */
    method Establish(before: State, key: CreateKey, env: Env)
      returns (st: State, reason: Option<Reason>, ghost asked: Option<CreateKey>)
      ensures asked == if env.register == Registered then Some(key) else None
      ensures env.register == RegisterRejected ==>
                st == before.(authFailed := true) && reason == Some(AuthFailed)
      ensures env.register == RegisterFailed ==> st == before && reason == Some(CalmUnreachable)
      ensures env.register == Registered ==>
                match env.create
                case Created(token) => st == before.(token := token) && reason == None
                case CreateRejected => st == before.(authFailed := true, token := "") && reason == Some(AuthFailed)
                case CreateFailed => st == before && reason == Some(CalmUnreachable)
    {
      st, asked := before, None;
      match env.register
      case RegisterRejected =>
        return st.(authFailed := true), Some(AuthFailed), None;
      case RegisterFailed =>
        return st, Some(CalmUnreachable), None;
      case Registered =>
        asked := Some(key);
        match env.create
        case Created(token) =>
          return st.(token := token), None, asked;
        case CreateRejected =>
          return st.(authFailed := true, token := ""), Some(AuthFailed), asked;
        case CreateFailed =>
          return st, Some(CalmUnreachable), asked;
    }

    /** Merges a registry delta, unless the session it belongs to has been replaced. */
    method Record(token: Token, delta: seq<SourceToken>, env: Env)
      modifies dir`state
      ensures dir.state == RecordDisk(old(dir.state), sessionId, token, delta, env)
    {
      if |delta| == 0 || !env.lockOk || !env.loadOk || dir.state.None? {
        return;
      }
      var st := dir.state.value;
      if st.sessionId != sessionId || st.token != token {
        return;
      }
      ghost var before := st;
      for i := 0 to |delta|
        invariant st == Merge(before, delta[..i])
      {
        assert delta[..i + 1][..i] == delta[..i];
        st := st.(registry := st.registry[delta[i].source := delta[i].token],
                  registrySeq := st.registrySeq[delta[i].source := st.seqNo]);
      }
      assert delta[..|delta|] == delta;
      var _ := dir.Save(st, env.save);
    }

    /** Spools events under the current epoch, unless the session they belong to has been replaced. */
    method Enqueue(token: Token, id: nat, events: seq<string>, env: Env, outcome: AppendOutcome)
      returns (appended: bool)
      modifies dir`spool
      ensures appended <==> events != [] && StillHolds(dir.state, sessionId, token, env)
      ensures appended ==>
                dir.spool == SpoolAfter(old(dir.spool), Line(id, dir.state.value.epoch, token, events), outcome)
      ensures !appended ==> dir.spool == old(dir.spool)
      ensures appended ==>
                AppendsTo(Entries(old(dir.spool)), Entries(dir.spool), Line(id, dir.state.value.epoch, token, events),
                  outcome)
    {
      if |events| == 0 || !env.lockOk || !env.loadOk || dir.state.None? {
        return false;
      }
      var st := dir.state.value;
      if st.sessionId != sessionId || st.token != token {
        return false;
      }
      dir.AppendSpool(Line(id, st.epoch, token, events), outcome);
      return true;
    }

    /** A direct 401/403: latch, no recovery. */
    method LatchAuth(env: Env) returns (reason: Option<Reason>)
      modifies dir`state
      ensures dir.state == LatchDisk(old(dir.state), sessionId, env)
      ensures reason == if Usable(old(dir.state), sessionId, env) then AfterSave(env.save, AuthFailed)
              else Some(CaptureFailed)
    {
      if !env.lockOk || !env.loadOk || (dir.state.Some? && dir.state.value.sessionId != sessionId) {
        return Some(CaptureFailed);
      }
      var st := if dir.state.Some? then dir.state.value else NewState(sessionId);
      st := st.(authFailed := true, token := "");
      var ok := dir.Save(st, env.save);
      return AfterSave(env.save, AuthFailed);
    }

    /** A 404: one replacement create, unless somebody else has already replaced the session. */
    method Recover(failedToken: Token, env: Env) returns (reason: Option<Reason>, ghost asked: Option<CreateKey>)
      modifies dir`state
      ensures dir.state == RecoverDisk(old(dir.state), sessionId, failedToken, env)
      ensures asked == if RecoverCreates(old(dir.state), sessionId, failedToken, env)
                       then Some(RecoverKey(old(dir.state), sessionId, client)) else None
      ensures reason == RecoverReplies(old(dir.state), sessionId, failedToken, env)
    {
      asked := None;
      if !env.lockOk || !env.loadOk || (dir.state.Some? && dir.state.value.sessionId != sessionId) {
        return Some(CaptureFailed), None;
      }
      var st := if dir.state.Some? then dir.state.value else NewState(sessionId);
      if st.authFailed {
        return Some(AuthFailed), None;
      }
      if st.token != failedToken {
        return Some(SessionLost), None;
      }
      st := st.(recoverySeq := st.recoverySeq + 1);
      asked := Some(CreateKey(client, sessionId, st.recoverySeq));
      match env.create {
        case Created(token) =>
          st := st.(token := token, epoch := st.epoch + 1, registry := map[], registrySeq := map[]);
          var ok := dir.Save(st, env.save);
          reason := AfterSave(env.save, SessionLost);
        case CreateRejected =>
          st := st.(authFailed := true, token := "");
          var ok := dir.Save(st, env.save);
          reason := AfterSave(env.save, AuthFailed);
        case CreateFailed =>
          reason := Some(CalmUnreachable);
      }
    }

    /** Abandons the session: the latch is cleared, recovery counter and epoch advance. */
    method Reset(env: Env) returns (ok: bool)
      modifies dir`state
      ensures dir.state == ResetDisk(old(dir.state), sessionId, env)
      ensures ok <==> Usable(old(dir.state), sessionId, env) && (old(dir.state).None? || env.save == Saved)
    {
      if !env.lockOk || !env.loadOk {
        return false;
      }
      if dir.state.None? {
        return true;
      }
      var st := dir.state.value;
      if st.sessionId != sessionId {
        return false;
      }
      st := st.(authFailed := false, token := "", nextAttempt := 0, recoverySeq := st.recoverySeq + 1,
                epoch := st.epoch + 1, registry := map[], registrySeq := map[]);
      ok := dir.Save(st, env.save);
    }

    // ----- Draining

    /**
     Moves the whole spool to this process's claim, in place of any claim left there by an earlier holder of its id.
     */
    method ClaimSpool(pid: Pid, lockOk: bool) returns (claimed: bool)
      modifies dir`spool, dir`inflight
      ensures claimed <==> lockOk && old(dir.spool).Some?
      ensures claimed ==> dir.spool == None && dir.inflight == old(dir.inflight)[pid := old(dir.spool).value]
      ensures !claimed ==> dir.spool == old(dir.spool) && dir.inflight == old(dir.inflight)
    {
      if !lockOk || dir.spool.None? {
        return false;
      }
      dir.inflight := dir.inflight[pid := dir.spool.value];
      dir.spool := None;
      return true;
    }

    /** Reads the claim and the state, then delivers; without a state the claim is thrown away unsent. */
    method DeliverClaim(pid: Pid, readOk: bool, loadOk: bool, outcomes: seq<SendOutcome>) returns (sent: seq<Line>)
      modifies dir`inflight
      ensures var entries := old(dir.inflight);
              if !readOk || pid !in entries || !loadOk then sent == [] && dir.inflight == entries
              else if dir.state.None? then sent == [] && dir.inflight == entries - {pid}
              else
                && sent == SentLines(entries[pid], dir.state.value.epoch, outcomes)
                && dir.inflight == if Completes(entries[pid], dir.state.value.epoch, outcomes) then entries - {pid}
                  else entries
    {
      if !readOk || pid !in dir.inflight || !loadOk {
        return [];
      }
      if dir.state.None? {
        dir.inflight := dir.inflight - {pid};
        return [];
      }
      var delivered, stale, notFound;
      sent, delivered, stale, notFound := DeliverInflight(pid, dir.inflight[pid], dir.state.value.epoch, outcomes);
    }

    /** Works through a claim that has been read; only a claim it got through completely is removed. */
    method DeliverInflight(pid: Pid, entries: seq<SpoolEntry>, epoch: nat, outcomes: seq<SendOutcome>)
      returns (sent: seq<Line>, delivered: nat, stale: nat, notFound: nat)
      modifies dir`inflight
      ensures sent == SentLines(entries, epoch, outcomes)
      ensures dir.inflight == if Completes(entries, epoch, outcomes) then old(dir.inflight) - {pid}
              else old(dir.inflight)
      ensures Completes(entries, epoch, outcomes) ==>
                delivered + notFound == |sent| && delivered + notFound + stale == |entries|
    {
      sent, delivered, stale, notFound := [], 0, 0, 0;
      var k := 0;
      for i := 0 to |entries|
        invariant k <= |outcomes|
        invariant sent + SentLines(entries[i..], epoch, outcomes[k..]) == SentLines(entries, epoch, outcomes)
        invariant Completes(entries[i..], epoch, outcomes[k..]) == Completes(entries, epoch, outcomes)
        invariant delivered + notFound == |sent| && delivered + notFound + stale == i
        invariant dir.inflight == old(dir.inflight)
      {
        assert entries[i..][1..] == entries[i + 1..];
        var entry := entries[i];
        if entry.Unparseable? || entry.line.epoch != epoch {
          stale := stale + 1;
          continue;
        }
        sent := sent + [entry.line];
        if k == |outcomes| || outcomes[k] == SendFailed {
          return;
        }
        assert outcomes[k..][1..] == outcomes[k + 1..];
        if outcomes[k] == Delivered {
          delivered := delivered + 1;
        } else {
          notFound := notFound + 1;
        }
        k := k + 1;
      }
      dir.inflight := dir.inflight - {pid};
    }
  }
}
