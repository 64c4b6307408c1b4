/**
 Runs of the event spool: processes enqueue under the lock, claim by rename, read, look at the
 state, deliver line by line and clean up, and anybody may reap a claim or die at any time
 (internal/adapter/session/spool.go). The session record moves underneath, as in SessionProtocol.
 */
module SpoolProtocol {
  import opened Wrappers
  import opened CaptureState
  import SP = SessionProtocol

  type Pid = nat

  /** Where a draining process stands. */
  datatype Drainer =
    | Claimed
    | HasRead(entries: seq<SpoolEntry>)
    | Delivering(rest: seq<SpoolEntry>, seen: State)

  /** One call of `WriteEvents`: the line, the credential passed along, and the state the drainer had seen. */
  datatype Write = Write(line: Line, token: Token, seen: State)

  /** Where an enqueued line currently is, seen from the outside. */
  datatype Place = InSpool | InClaim(pid: Pid) | InMemory(pid: Pid) | Sent

  datatype System = System(
    session: SP.World,
    spool: Option<seq<SpoolEntry>>,
    inflight: map<Pid, seq<SpoolEntry>>,
    drainers: map<Pid, Drainer>,
    enqueued: map<nat, Line>,
    place: map<nat, Place>,
    writes: seq<Write>)

  const START := System(SP.START, None, map[], map[], map[], map[], [])

  datatype Step =
    | Session(step: SP.Step)
    | Enqueue(token: Token, events: seq<string>, env: Env, append: AppendOutcome)
    | Claim(pid: Pid)
    | Read(pid: Pid, ok: bool)
    | LoadState(pid: Pid, ok: bool)
    | Deliver(pid: Pid, outcome: SendOutcome)
    | Discard(pid: Pid)
    | Die(pid: Pid)
    | Reap(pid: Pid)

  ghost function IdsOf(entries: seq<SpoolEntry>): set<nat> {
    set e | e in entries && e.Parsed? :: e.line.id
  }

  ghost function Move(place: map<nat, Place>, ids: set<nat>, to: Place): map<nat, Place> {
    map id | id in place :: if id in ids then to else place[id]
  }

  // ----- Steps

  predicate CanDeliver(s: System, pid: Pid) {
    pid in s.drainers && s.drainers[pid].Delivering? && s.drainers[pid].rest != []
  }

  /** One line: skipped, or passed to `WriteEvents` with its own credential; a failed send ends the drainer. */
  ghost function AfterDeliver(s: System, pid: Pid, outcome: SendOutcome): System
    requires CanDeliver(s, pid)
  {
    var d := s.drainers[pid];
    var entry, remaining := d.rest[0], Delivering(d.rest[1..], d.seen);
    if !Sends(entry, d.seen.epoch) then s.(drainers := s.drainers[pid := remaining]) else
      s.(writes := s.writes + [Write(entry.line, entry.line.token, d.seen)],
         place := Move(s.place, {entry.line.id}, Sent),
         drainers := if outcome == SendFailed then s.drainers - {pid} else s.drainers[pid := remaining])
  }

  /** Line ids are handed out in order. */
  ghost function NewLine(s: System, token: Token, events: seq<string>): Line
    requires s.session.disk.Some?
  {
    Line(|s.enqueued|, s.session.disk.value.epoch, token, events)
  }

  ghost predicate Next(me: string, s: System, step: Step, s': System) {
    match step
    case Session(inner) =>
      SP.Next(me, s.session, inner, s'.session) && s' == s.(session := s'.session)
    case Enqueue(token, events, env, append) =>
      && SP.WasIssued(s.session, token)
      && if events == [] || !StillHolds(s.session.disk, me, token, env) then s' == s else
           var line := NewLine(s, token, events);
           s' == s.(spool := SpoolAfter(s.spool, line, append),
                    enqueued := s.enqueued[line.id := line], place := s.place[line.id := InSpool])
    case Claim(pid) =>
      && pid !in s.drainers
      && if s.spool.None? then s' == s else
           s' == s.(spool := None, inflight := s.inflight[pid := s.spool.value],
                    drainers := s.drainers[pid := Claimed], place := Move(s.place, IdsOf(s.spool.value), InClaim(pid)))
    case Read(pid, ok) =>
      && pid in s.drainers && s.drainers[pid].Claimed?
      && if !ok || pid !in s.inflight then s' == s.(drainers := s.drainers - {pid}) else
           s' == s.(drainers := s.drainers[pid := HasRead(s.inflight[pid])],
                    place := Move(s.place, IdsOf(s.inflight[pid]), InMemory(pid)))
    case LoadState(pid, ok) =>
      && pid in s.drainers && s.drainers[pid].HasRead?
      && if !ok then s' == s.(drainers := s.drainers - {pid})
         else if s.session.disk.None? then s' == s.(drainers := s.drainers - {pid}, inflight := s.inflight - {pid})
         else s' == s.(drainers := s.drainers[pid := Delivering(s.drainers[pid].entries, s.session.disk.value)])
    case Deliver(pid, outcome) =>
      CanDeliver(s, pid) && s' == AfterDeliver(s, pid, outcome)
    case Discard(pid) =>
      && pid in s.drainers && s.drainers[pid].Delivering? && s.drainers[pid].rest == []
      && s' == s.(drainers := s.drainers - {pid}, inflight := s.inflight - {pid})
    case Die(pid) =>
      s' == s.(drainers := s.drainers - {pid})
    case Reap(pid) =>
      s' == s.(inflight := s.inflight - {pid})
  }

  // ----- The invariant

  ghost predicate Genuine(s: System, line: Line, at: Place) {
    line.id in s.enqueued && s.enqueued[line.id] == line && line.id in s.place && s.place[line.id] == at
  }

  /** Every line of a list is a genuine, distinct one that is where the list is. */
  ghost predicate Holds(s: System, entries: seq<SpoolEntry>, at: Place) {
    && (forall i | 0 <= i < |entries| && entries[i].Parsed? :: Genuine(s, entries[i].line, at))
    && (forall i, j | 0 <= i < j < |entries| && entries[i].Parsed? && entries[j].Parsed? ::
          entries[i].line.id != entries[j].line.id)
  }

  ghost predicate DrainerHolds(s: System, pid: Pid)
    requires pid in s.drainers
  {
    match s.drainers[pid]
    case Claimed => pid in s.inflight ==> Holds(s, s.inflight[pid], InClaim(pid))
    case HasRead(entries) => Holds(s, entries, InMemory(pid))
    case Delivering(rest, seen) =>
      Holds(s, rest, InMemory(pid)) && SP.Held(seen.epoch, seen.token) in s.session.held
  }

  ghost predicate WritesInv(s: System) {
    && (forall w <- s.writes ::
          && Genuine(s, w.line, Sent) && w.token == w.line.token && w.line.epoch == w.seen.epoch
          && SP.Held(w.seen.epoch, w.seen.token) in s.session.held)
    && (forall i, j | 0 <= i < j < |s.writes| :: s.writes[i].line.id != s.writes[j].line.id)
  }

  ghost predicate EnqueuedInv(s: System) {
    && (forall id: nat :: id in s.enqueued <==> id < |s.enqueued|)
    && s.place.Keys == s.enqueued.Keys
    && forall id <- s.enqueued ::
         && s.enqueued[id].id == id && s.enqueued[id].token != ""
         && SP.Held(s.enqueued[id].epoch, s.enqueued[id].token) in s.session.held
  }

  ghost predicate SpoolInv(s: System) {
    && EnqueuedInv(s)
    && Holds(s, Entries(s.spool), InSpool)
    && (forall pid <- s.drainers :: DrainerHolds(s, pid))
    && WritesInv(s)
  }

  ghost predicate Inv(me: string, s: System) {
    SP.Inv(me, s.session) && SpoolInv(s)
  }

  // ----- What a step leaves alone

  /** Nothing is forgotten, and only lines at `from` have moved. */
  ghost predicate Undisturbed(s: System, s': System, from: Place) {
    && s.session.held <= s'.session.held
    && (forall id <- s.enqueued :: id in s'.enqueued && s'.enqueued[id] == s.enqueued[id])
    && (forall id <- s.place :: id in s'.place && (s.place[id] != from ==> s'.place[id] == s.place[id]))
  }

  lemma Unmoved(s: System, s': System, from: Place, entries: seq<SpoolEntry>, at: Place)
    requires Undisturbed(s, s', from) && from != at && Holds(s, entries, at)
    ensures Holds(s', entries, at)
  {
  }

  lemma DrainerUnmoved(s: System, s': System, from: Place, pid: Pid)
    requires Undisturbed(s, s', from) && from != InClaim(pid) && from != InMemory(pid)
    requires pid in s.drainers && DrainerHolds(s, pid) && pid in s'.drainers && s'.drainers[pid] == s.drainers[pid]
    requires pid in s'.inflight ==> pid in s.inflight && s'.inflight[pid] == s.inflight[pid]
    ensures DrainerHolds(s', pid)
  {
    match s.drainers[pid]
    case Claimed => if pid in s'.inflight { Unmoved(s, s', from, s.inflight[pid], InClaim(pid)); }
    case HasRead(entries) => Unmoved(s, s', from, entries, InMemory(pid));
    case Delivering(rest, _) => Unmoved(s, s', from, rest, InMemory(pid));
  }

  lemma WritesUnmoved(s: System, s': System, from: Place)
    requires Undisturbed(s, s', from) && from != Sent && WritesInv(s) && s'.writes == s.writes
    ensures WritesInv(s')
  {
    forall w <- s'.writes
      ensures Genuine(s', w.line, Sent)
    {
      assert Genuine(s, w.line, Sent);
    }
  }

  /** A whole list moves from one place to the next. */
  lemma Moved(s: System, s': System, entries: seq<SpoolEntry>, from: Place, to: Place)
    requires Holds(s, entries, from) && s'.enqueued == s.enqueued && s'.session == s.session
    requires s'.place == Move(s.place, IdsOf(entries), to)
    ensures Holds(s', entries, to)
    ensures Undisturbed(s, s', from)
  {
    forall i | 0 <= i < |entries| && entries[i].Parsed?
      ensures Genuine(s', entries[i].line, to)
    {
      assert Genuine(s, entries[i].line, from);
      assert entries[i] in entries;
    }
  }

  /** Everything but the affected drainer (and perhaps the spool) is as before. */
  lemma RestUnmoved(s: System, s': System, from: Place, pid: Pid)
    requires SpoolInv(s) && s'.session == s.session && s'.enqueued == s.enqueued && s'.writes == s.writes
    requires s'.place.Keys == s.place.Keys && Undisturbed(s, s', from)
    requires from in {InSpool, InClaim(pid), InMemory(pid)}
    requires forall q <- s'.drainers | q != pid :: q in s.drainers && s'.drainers[q] == s.drainers[q]
    requires forall q <- s'.inflight | q != pid :: q in s.inflight && s'.inflight[q] == s.inflight[q]
    requires s'.spool.None? || (s'.spool == s.spool && from != InSpool)
    requires pid in s'.drainers ==> DrainerHolds(s', pid)
    ensures SpoolInv(s')
  {
    WritesUnmoved(s, s', from);
    if s'.spool.Some? {
      Unmoved(s, s', from, Entries(s.spool), InSpool);
    }
    forall q <- s'.drainers | q != pid
      ensures DrainerHolds(s', q)
    {
      DrainerUnmoved(s, s', from, q);
    }
  }

  // ----- Every step keeps the invariant

  lemma SessionKeeps(s: System, s': System)
    requires SpoolInv(s) && s' == s.(session := s'.session) && s.session.held <= s'.session.held
    ensures SpoolInv(s')
  {
    forall pid <- s'.drainers
      ensures DrainerHolds(s', pid)
    {
      // Nothing has moved, whatever place is excepted.
      DrainerUnmoved(s, s', InSpool, pid);
    }
    WritesUnmoved(s, s', InSpool);
    Unmoved(s, s', Sent, Entries(s.spool), InSpool);
  }

  lemma AppendHolds(s: System, s': System, line: Line, append: AppendOutcome)
    requires Holds(s, Entries(s.spool), InSpool) && EnqueuedInv(s) && line.id == |s.enqueued|
    requires s'.enqueued == s.enqueued[line.id := line] && s'.place == s.place[line.id := InSpool]
    ensures Holds(s', Entries(SpoolAfter(s.spool, line, append)), InSpool)
  {
    var before := Entries(s.spool);
    StillHeld(s, s', before, line);
    if append.NotWritten? {
    } else if Unended(before) {
      OneMoreHeld(s', before[..|before| - 1], Unparseable(append.Appended?));
    } else {
      OneMoreHeld(s', before, EntryFor(line, append));
    }
  }

  lemma StillHeld(s: System, s': System, entries: seq<SpoolEntry>, line: Line)
    requires Holds(s, entries, InSpool) && EnqueuedInv(s) && line.id == |s.enqueued|
    requires s'.enqueued == s.enqueued[line.id := line] && s'.place == s.place[line.id := InSpool]
    ensures Holds(s', entries, InSpool)
    ensures forall i | 0 <= i < |entries| && entries[i].Parsed? :: entries[i].line.id != line.id
  {
    forall i | 0 <= i < |entries| && entries[i].Parsed?
      ensures Genuine(s', entries[i].line, InSpool) && entries[i].line.id != line.id
    {
      assert Genuine(s, entries[i].line, InSpool);
    }
  }

  lemma OneMoreHeld(s: System, entries: seq<SpoolEntry>, entry: SpoolEntry)
    requires Holds(s, entries, InSpool)
    requires entry.Parsed? ==> Genuine(s, entry.line, InSpool)
    requires forall i | 0 <= i < |entries| && entries[i].Parsed? && entry.Parsed? :: entries[i].line.id != entry.line.id
    ensures Holds(s, entries + [entry], InSpool)
  {
  }

  lemma EnqueueKeeps(s: System, line: Line, append: AppendOutcome, s': System)
    requires SpoolInv(s) && line.id == |s.enqueued| && line.token != ""
             && SP.Held(line.epoch, line.token) in s.session.held
    requires s' == s.(spool := SpoolAfter(s.spool, line, append),
                      enqueued := s.enqueued[line.id := line], place := s.place[line.id := InSpool])
    ensures SpoolInv(s')
  {
    AppendHolds(s, s', line, append);
    forall pid <- s'.drainers
      ensures DrainerHolds(s', pid)
    {
      DrainerUnmoved(s, s', InSpool, pid);
    }
    WritesUnmoved(s, s', InSpool);
    EnqueuedGrows(s, s', line);
  }

  lemma EnqueuedGrows(s: System, s': System, line: Line)
    requires EnqueuedInv(s) && line.id == |s.enqueued| && line.token != ""
             && SP.Held(line.epoch, line.token) in s.session.held
    requires s'.session == s.session && s'.enqueued == s.enqueued[line.id := line]
             && s'.place == s.place[line.id := InSpool]
    ensures EnqueuedInv(s')
  {
    assert |s'.enqueued| == |s.enqueued| + 1;
  }

  lemma ClaimKeeps(me: string, s: System, pid: Pid, s': System)
    requires SpoolInv(s) && Next(me, s, Claim(pid), s')
    ensures SpoolInv(s')
  {
    if s.spool.Some? {
      Moved(s, s', s.spool.value, InSpool, InClaim(pid));
      RestUnmoved(s, s', InSpool, pid);
    }
  }

  lemma ReadKeeps(me: string, s: System, pid: Pid, ok: bool, s': System)
    requires SpoolInv(s) && Next(me, s, Read(pid, ok), s')
    ensures SpoolInv(s')
  {
    if ok && pid in s.inflight {
      assert DrainerHolds(s, pid);
      Moved(s, s', s.inflight[pid], InClaim(pid), InMemory(pid));
    }
    RestUnmoved(s, s', InClaim(pid), pid);
  }

  lemma LoadStateKeeps(me: string, s: System, pid: Pid, ok: bool, s': System)
    requires SpoolInv(s) && Next(me, s, LoadState(pid, ok), s')
    requires s.session.disk.Some? ==> SP.Held(s.session.disk.value.epoch, s.session.disk.value.token) in s.session.held
    ensures SpoolInv(s')
  {
    if ok && s.session.disk.Some? {
      assert DrainerHolds(s, pid);
      Unmoved(s, s', InClaim(pid), s.drainers[pid].entries, InMemory(pid));
      RestUnmoved(s, s', InClaim(pid), pid);
    } else {
      RemovalKeeps(s, pid, s');
    }
  }

  lemma SkipKeeps(s: System, pid: Pid, s': System)
    requires SpoolInv(s) && CanDeliver(s, pid) && !Sends(s.drainers[pid].rest[0], s.drainers[pid].seen.epoch)
    requires s' == AfterDeliver(s, pid, Delivered)
    ensures SpoolInv(s')
  {
    assert DrainerHolds(s, pid);
    Unmoved(s, s', InClaim(pid), s.drainers[pid].rest, InMemory(pid));
    RestUnmoved(s, s', InClaim(pid), pid);
  }

  /** The line leaves the drainer's list; what it leaves behind are other lines. */
  lemma TakenOut(s: System, s': System, rest: seq<SpoolEntry>, from: Place)
    requires Holds(s, rest, from) && rest != [] && rest[0].Parsed? && from != Sent
    requires s'.enqueued == s.enqueued && s'.session == s.session && s'.place == Move(s.place, {rest[0].line.id}, Sent)
    ensures Holds(s', rest[1..], from)
    ensures Undisturbed(s, s', from) && Genuine(s', rest[0].line, Sent)
  {
    assert Genuine(s, rest[0].line, from);
    forall i | 0 <= i < |rest[1..]| && rest[1..][i].Parsed?
      ensures Genuine(s', rest[1..][i].line, from)
    {
      assert Genuine(s, rest[i + 1].line, from);
    }
  }

  lemma SentOnce(s: System, s': System, w: Write)
    requires WritesInv(s) && s'.writes == s.writes + [w]
    requires w.line.id in s.place && s.place[w.line.id] != Sent
    requires s'.session == s.session && s'.enqueued == s.enqueued && Genuine(s', w.line, Sent)
    requires forall id <- s.place | s.place[id] == Sent :: id in s'.place && s'.place[id] == Sent
    requires w.token == w.line.token && w.line.epoch == w.seen.epoch
             && SP.Held(w.seen.epoch, w.seen.token) in s.session.held
    ensures WritesInv(s')
  {
    forall v <- s.writes
      ensures v.line.id != w.line.id && Genuine(s', v.line, Sent)
    {
      assert Genuine(s, v.line, Sent);
    }
  }

  lemma SendKeeps(s: System, pid: Pid, outcome: SendOutcome, s': System)
    requires SpoolInv(s) && CanDeliver(s, pid) && Sends(s.drainers[pid].rest[0], s.drainers[pid].seen.epoch)
    requires s' == AfterDeliver(s, pid, outcome)
    ensures SpoolInv(s')
  {
    var d := s.drainers[pid];
    var line := d.rest[0].line;
    assert DrainerHolds(s, pid) && Genuine(s, line, InMemory(pid));
    TakenOut(s, s', d.rest, InMemory(pid));
    var quiet := s'.(writes := s.writes);
    assert pid in quiet.drainers ==> DrainerHolds(s', pid) && DrainerHolds(quiet, pid);
    RestUnmoved(s, quiet, InMemory(pid), pid);
    SentOnce(s, s', Write(line, line.token, d.seen));
    WithWrites(quiet, s');
  }

  lemma WithWrites(s: System, s': System)
    requires SpoolInv(s) && s' == s.(writes := s'.writes) && WritesInv(s')
    ensures SpoolInv(s')
  {
    forall q <- s'.drainers
      ensures DrainerHolds(s', q)
    {
      DrainerUnmoved(s, s', InSpool, q);
    }
    Unmoved(s, s', Sent, Entries(s.spool), InSpool);
  }

  /** Claims and drainers that vanish take their lines with them. */
  lemma RemovalKeeps(s: System, pid: Pid, s': System)
    requires SpoolInv(s)
    requires s' == s.(drainers := s'.drainers, inflight := s'.inflight)
    requires s'.drainers == s.drainers || s'.drainers == s.drainers - {pid}
    requires s'.inflight == s.inflight || s'.inflight == s.inflight - {pid}
    ensures SpoolInv(s')
  {
    if pid in s'.drainers {
      DrainerUnmoved(s, s', InSpool, pid);
    }
    RestUnmoved(s, s', InClaim(pid), pid);
  }

  /** What the session contributes: the record's pair has been on disk, and handed-out tokens are tokens. */
  lemma SessionGives(me: string, w: SP.World)
    requires SP.Inv(me, w)
    ensures w.disk.Some? ==> SP.Held(w.disk.value.epoch, w.disk.value.token) in w.held
    ensures forall token | SP.WasIssued(w, token) :: token != ""
  {
    forall token | SP.WasIssued(w, token)
      ensures token != ""
    {
      var i :| 0 <= i < |w.issued| && w.issued[i].token == token;
    }
  }

  /** What one step keeps of the spool's invariant. */
  lemma SpoolKeeps(me: string, s: System, step: Step, s': System)
    requires SpoolInv(s) && Next(me, s, step, s') && !step.Session?
    requires s.session.disk.Some? ==> SP.Held(s.session.disk.value.epoch, s.session.disk.value.token) in s.session.held
    requires forall token | SP.WasIssued(s.session, token) :: token != ""
    ensures SpoolInv(s') && s'.session == s.session
  {
    match step
    case Enqueue(token, events, env, append) =>
      if events != [] && StillHolds(s.session.disk, me, token, env) {
        EnqueueKeeps(s, NewLine(s, token, events), append, s');
      }
    case Claim(pid) => ClaimKeeps(me, s, pid, s');
    case Read(pid, ok) => ReadKeeps(me, s, pid, ok, s');
    case LoadState(pid, ok) => LoadStateKeeps(me, s, pid, ok, s');
    case Deliver(pid, outcome) =>
      if Sends(s.drainers[pid].rest[0], s.drainers[pid].seen.epoch) {
        SendKeeps(s, pid, outcome, s');
      } else {
        SkipKeeps(s, pid, s');
      }
    case Discard(pid) => RemovalKeeps(s, pid, s');
    case Die(pid) => RemovalKeeps(s, pid, s');
    case Reap(pid) => RemovalKeeps(s, pid, s');
  }

  /** One step of anybody keeps the invariant. */
  lemma NextKeeps(me: string, s: System, step: Step, s': System)
    requires Inv(me, s) && Next(me, s, step, s')
    ensures Inv(me, s')
  {
    if step.Session? {
      SP.NextKeeps(me, s.session, step.step, s'.session);
      SessionKeeps(s, s');
    } else {
      SessionGives(me, s.session);
      SpoolKeeps(me, s, step, s');
    }
  }

  // ----- Runs

  ghost predicate Run(me: string, ss: seq<System>, steps: seq<Step>) {
    && |ss| == |steps| + 1 && ss[0] == START
    && forall i | 0 <= i < |steps| :: Next(me, ss[i], steps[i], ss[i + 1])
  }

  lemma StartInv(me: string)
    ensures Inv(me, START)
  {
    assert START.enqueued == map[];
  }

  lemma {:induction false} RunInv(me: string, ss: seq<System>, steps: seq<Step>, i: nat)
    requires Run(me, ss, steps) && i < |ss|
    ensures Inv(me, ss[i])
  {
    if i == 0 {
      StartInv(me);
    } else {
      RunInv(me, ss, steps, i - 1);
      NextKeeps(me, ss[i - 1], steps[i - 1], ss[i]);
    }
  }

  /** Every enqueued line is passed to `WriteEvents` at most once in a run. */
  lemma AtMostOnce(me: string, ss: seq<System>, steps: seq<Step>, n: nat, i: nat, j: nat)
    requires Run(me, ss, steps) && n < |ss| && i < j < |ss[n].writes|
    ensures ss[n].writes[i].line.id != ss[n].writes[j].line.id
  {
    RunInv(me, ss, steps, n);
  }

  /**
   What is written is what was enqueued, under the credential it was captured with: the only token
   its epoch ever held, and never the token of any other epoch.
   */
  lemma CredentialFidelity(me: string, ss: seq<System>, steps: seq<Step>, n: nat, w: Write)
    requires Run(me, ss, steps) && n < |ss| && w in ss[n].writes
    ensures w.line.id in ss[n].enqueued && ss[n].enqueued[w.line.id] == w.line
    ensures w.token == w.line.token && w.token != ""
    ensures forall h <- ss[n].session.held | h.token != "" :: h.epoch == w.line.epoch <==> h.token == w.token
  {
    RunInv(me, ss, steps, n);
    assert Genuine(ss[n], w.line, Sent);
    assert SP.Held(w.line.epoch, w.line.token) in ss[n].session.held;
  }

  /**
   Long before anything is written, and whether or not it ever is, a line in the spool is one that
   was enqueued, and its epoch and token are a session that the record really had: the only token
   of that epoch and no other epoch's.
   */
  lemma SpooledLinesAreGenuine(me: string, ss: seq<System>, steps: seq<Step>, n: nat, i: nat)
    requires Run(me, ss, steps) && n < |ss| && i < |Entries(ss[n].spool)| && Entries(ss[n].spool)[i].Parsed?
    ensures var line := Entries(ss[n].spool)[i].line;
            && line.id in ss[n].enqueued && ss[n].enqueued[line.id] == line && line.token != ""
            && SP.Held(line.epoch, line.token) in ss[n].session.held
            && forall h <- ss[n].session.held | h.token != "" :: h.epoch == line.epoch <==> h.token == line.token
  {
    RunInv(me, ss, steps, n);
    var line := Entries(ss[n].spool)[i].line;
    assert Genuine(ss[n], line, InSpool);
    assert SP.Held(line.epoch, line.token) in ss[n].session.held;
  }

  // ----- Lines in the spool

  /** A claim that finds a spool. */
  ghost predicate Claims(s: System, step: Step) {
    step.Claim? && s.spool.Some?
  }

  /** Ended lines stay at their places. */
  ghost predicate KeepsLines(before: seq<SpoolEntry>, after: seq<SpoolEntry>) {
    |before| <= |after| && forall i | 0 <= i < |before| && before[i].ended :: after[i] == before[i]
  }

  /** An ended line stays at its place in the spool until the spool is claimed; a claim takes all of it, in order. */
  lemma LinesStayOrAreClaimed(me: string, s: System, step: Step, s': System)
    requires Next(me, s, step, s')
    ensures if Claims(s, step) then
              s'.spool == None && step.pid in s'.inflight && s'.inflight[step.pid] == s.spool.value
            else KeepsLines(Entries(s.spool), Entries(s'.spool))
  {
    if step.Enqueue? && s'.spool != s.spool {
      AppendKeepsLines(s.spool, NewLine(s, step.token, step.events), step.append);
    }
  }

  ghost predicate SpooledAt(s: System, i: nat, entry: SpoolEntry) {
    i < |Entries(s.spool)| && Entries(s.spool)[i] == entry
  }

  ghost predicate Unclaimed(ss: seq<System>, steps: seq<Step>, a: nat, b: nat) {
    a <= b < |ss| && b <= |steps| && forall k | a <= k < b :: !Claims(ss[k], steps[k])
  }

  lemma LineStays(me: string, s: System, step: Step, s': System, i: nat, entry: SpoolEntry)
    requires Next(me, s, step, s') && !Claims(s, step) && SpooledAt(s, i, entry) && entry.ended
    ensures SpooledAt(s', i, entry)
  {
    LinesStayOrAreClaimed(me, s, step, s');
  }

  ghost predicate CarriedOn(holds: nat -> bool, k: nat) {
    holds(k) ==> holds(k + 1)
  }

  lemma {:induction false} CarriedTo(holds: nat -> bool, a: nat, b: nat)
    requires a <= b && holds(a) && forall k: nat | a <= k < b :: CarriedOn(holds, k)
    ensures holds(b)
  {
    if a < b {
      CarriedTo(holds, a, b - 1);
      assert CarriedOn(holds, b - 1);
    }
  }

  ghost function IsSpooled(ss: seq<System>, i: nat, entry: SpoolEntry): nat -> bool {
    (k: nat) => k < |ss| && SpooledAt(ss[k], i, entry)
  }

  lemma StaysOneStep(me: string, ss: seq<System>, steps: seq<Step>, k: nat, i: nat, entry: SpoolEntry)
    requires Run(me, ss, steps) && k < |steps| && !Claims(ss[k], steps[k]) && entry.ended
    ensures CarriedOn(IsSpooled(ss, i, entry), k)
  {
    if IsSpooled(ss, i, entry)(k) {
      LineStays(me, ss[k], steps[k], ss[k + 1], i, entry);
    }
  }

  /** In every run, a line once fully in the spool is there, at its place, until somebody claims the spool. */
  lemma LinesStayUntilClaimed(me: string, ss: seq<System>, steps: seq<Step>, a: nat, b: nat, i: nat, entry: SpoolEntry)
    requires Run(me, ss, steps) && Unclaimed(ss, steps, a, b)
    requires SpooledAt(ss[a], i, entry) && entry.ended
    ensures SpooledAt(ss[b], i, entry)
  {
    forall k: nat | a <= k < b
      ensures CarriedOn(IsSpooled(ss, i, entry), k)
    {
      assert !Claims(ss[k], steps[k]);
      StaysOneStep(me, ss, steps, k, i, entry);
    }
    CarriedTo(IsSpooled(ss, i, entry), a, b);
  }

  /** In every run, a fully written line of the current session is in the spool at once, behind all that was there. */
  lemma EnqueuedIsSpooled(me: string, ss: seq<System>, steps: seq<Step>, n: nat)
    requires Run(me, ss, steps) && n < |steps| && steps[n].Enqueue? && steps[n].append.Appended?
    requires steps[n].events != [] && StillHolds(ss[n].session.disk, me, steps[n].token, steps[n].env)
    requires Entries(ss[n].spool) == [] || Entries(ss[n].spool)[|Entries(ss[n].spool)| - 1].ended
    ensures var s, s' := ss[n], ss[n + 1];
            var line := Line(|s.enqueued|, EpochOf(s), steps[n].token, steps[n].events);
            && line.id !in s.enqueued && s'.enqueued == s.enqueued[line.id := line]
            && Entries(s'.spool) == Entries(s.spool) + [Parsed(line, true)]
  {
    RunInv(me, ss, steps, n);
    assert Next(me, ss[n], steps[n], ss[n + 1]);
    AppendKeepsLines(ss[n].spool, NewLine(ss[n], steps[n].token, steps[n].events), Appended);
  }

  // ----- Lines that outlive their epoch

  function EpochIn(disk: Option<State>): nat {
    if disk.Some? then disk.value.epoch else 0
  }

  ghost function EpochOf(s: System): nat {
    EpochIn(s.session.disk)
  }

  /** A saved `Reset`, or a saved replacement, supersedes the session. */
  predicate Supersedes(me: string, disk: Option<State>, step: SP.Step) {
    match step
    case Reset(env) => Usable(disk, me, env) && disk.Some? && env.save != SaveFailed
    case Recover(_, failed, env) => RecoverCreates(disk, me, failed, env) && env.create.Created?
      && env.save != SaveFailed
    case _ => false
  }

  ghost predicate Superseding(me: string, s: System, step: Step) {
    step.Session? && Supersedes(me, s.session.disk, step.step)
  }

  /** What a step of the session does to the record alone. */
  lemma RecordMovesIff(me: string, w: SP.World, step: SP.Step, w': SP.World)
    requires SP.Next(me, w, step, w')
    ensures EpochIn(w.disk) <= EpochIn(w'.disk)
    ensures EpochIn(w.disk) != EpochIn(w'.disk) <==> Supersedes(me, w.disk, step)
  {
    if step.Record? {
      MergeKeepsEpoch(w.disk, step.delta);
    }
  }

  /** No step lowers the epoch, and a step raises it exactly when it supersedes the session. */
  lemma EpochMovesIff(me: string, s: System, step: Step, s': System)
    requires Next(me, s, step, s')
    ensures EpochOf(s) <= EpochOf(s')
    ensures EpochOf(s) != EpochOf(s') <==> Superseding(me, s, step)
  {
    if step.Session? {
      RecordMovesIff(me, s.session, step.step, s'.session);
    }
  }

  lemma MergeKeepsEpoch(disk: Option<State>, delta: seq<SourceToken>)
    ensures disk.Some? ==> Merge(disk.value, delta).epoch == disk.value.epoch
  {
  }

  /** Along a run the epoch is the same exactly while nothing supersedes the session. */
  lemma {:induction false} EpochStaysIff(me: string, ss: seq<System>, steps: seq<Step>, a: nat, b: nat)
    requires Run(me, ss, steps) && a <= b < |ss|
    ensures EpochOf(ss[a]) <= EpochOf(ss[b])
    ensures EpochOf(ss[a]) == EpochOf(ss[b]) <==> forall k | a <= k < b :: !Superseding(me, ss[k], steps[k])
    decreases b
  {
    if a < b {
      EpochStaysIff(me, ss, steps, a, b - 1);
      EpochMovesIff(me, ss[b - 1], steps[b - 1], ss[b]);
    }
  }

  /** From step `a` on the process works on what it loaded there. */
  ghost predicate DeliversFrom(ss: seq<System>, steps: seq<Step>, pid: Pid, a: nat, b: nat) {
    && a < b < |ss| && |ss| == |steps| + 1 && steps[a] == LoadState(pid, true)
    && forall k | a < k <= b :: pid in ss[k].drainers && ss[k].drainers[pid].Delivering?
  }

  /** A drainer that stays with its lines stays with the state it saw. */
  lemma SeenKept(me: string, s: System, step: Step, s': System, pid: Pid)
    requires Next(me, s, step, s')
    requires pid in s.drainers && s.drainers[pid].Delivering? && pid in s'.drainers && s'.drainers[pid].Delivering?
    ensures s'.drainers[pid].seen == s.drainers[pid].seen
  {
  }

  lemma SeenFirst(me: string, s: System, pid: Pid, s': System)
    requires Next(me, s, LoadState(pid, true), s') && pid in s'.drainers && s'.drainers[pid].Delivering?
    ensures s.session.disk.Some? && s'.drainers[pid].seen == s.session.disk.value
  {
  }

  lemma {:induction false} SeenStays(me: string, ss: seq<System>, steps: seq<Step>, pid: Pid, a: nat, b: nat)
    requires Run(me, ss, steps) && DeliversFrom(ss, steps, pid, a, b)
    ensures ss[a].session.disk.Some? && ss[b].drainers[pid].seen == ss[a].session.disk.value
    decreases b
  {
    if a + 1 < b {
      SeenStays(me, ss, steps, pid, a, b - 1);
      SeenKept(me, ss[b - 1], steps[b - 1], ss[b], pid);
    } else {
      SeenFirst(me, ss[a], pid, ss[b]);
    }
  }

  /**
   A line is passed on while its epoch is current if and only if no replacement and no `Reset` was
   saved since the drainer looked: the state is read without the lock and never looked at again.
   */
  lemma SentWhileCurrentIff(me: string, ss: seq<System>, steps: seq<Step>, pid: Pid, a: nat, b: nat)
    requires Run(me, ss, steps) && DeliversFrom(ss, steps, pid, a, b)
    requires CanDeliver(ss[b], pid) && Sends(ss[b].drainers[pid].rest[0], ss[b].drainers[pid].seen.epoch)
    ensures ss[b].drainers[pid].rest[0].line.epoch == EpochOf(ss[b])
            <==> forall k | a <= k < b :: !Superseding(me, ss[k], steps[k])
  {
    SeenStays(me, ss, steps, pid, a, b);
    EpochStaysIff(me, ss, steps, a, b);
  }

  const GOING_WELL := Env(true, true, 0, Registered, Created("a"), Saved)

  /** The first capture of a conversation, then a replacement of its session. */
  ghost function Established(me: string): SP.World {
    SP.World(Some(NewState(me).(token := "a", seqNo := 1)), map["a" := CreateKey("c", me, 0)],
             {SP.Held(0, ""), SP.Held(0, "a")}, [SP.Generation("a", 0)], [SP.Issue("a", 1)], {})
  }

  ghost function Replaced(me: string): SP.World {
    var w := Established(me);
    w.(disk := Some(w.disk.value.(token := "b", recoverySeq := 1, epoch := 1)),
      minted := w.minted["b" := CreateKey("c", me, 1)],
       held := w.held + {SP.Held(1, "b")}, generations := w.generations + [SP.Generation("b", 1)])
  }

  lemma EstablishedFromStart(me: string)
    ensures SP.Next(me, SP.START, SP.Ensure("c", GOING_WELL), Established(me))
    ensures SP.WasIssued(Established(me), "a")
  {
    assert Established(me).issued[0].token == "a";
  }

  lemma ReplacedNext(me: string)
    ensures SP.Next(me, Established(me), SP.Recover("c", "a", GOING_WELL.(create := Created("b"))), Replaced(me))
  {
  }

  /** One line captured, spooled and claimed, with the state read just before the replacement. */
  ghost function Waiting(me: string, place: Place): System {
    var line := Line(0, 0, "a", ["e"]);
    System(Established(me), None, map[], map[], map[0 := line], map[0 := place], [])
  }

  const SPOOLED := [Parsed(Line(0, 0, "a", ["e"]), true)]

  ghost function SupersededRun(me: string): seq<System> {
    var read := Waiting(me, InMemory(1)).(inflight := map[1 := SPOOLED]);
    var ready := read.(drainers := map[1 := Delivering(SPOOLED, Established(me).disk.value)]);
    var late := ready.(session := Replaced(me));
    [ START, START.(session := Established(me)), Waiting(me, InSpool).(spool := Some(SPOOLED)),
      Waiting(me, InClaim(1)).(inflight := map[1 := SPOOLED], drainers := map[1 := Claimed]),
      read.(drainers := map[1 := HasRead(SPOOLED)]), ready, late, AfterDeliver(late, 1, Delivered) ]
  }

  const SUPERSEDED_STEPS := [
    Session(SP.Ensure("c", GOING_WELL)), Enqueue("a", ["e"], GOING_WELL, Appended), Claim(1), Read(1, true),
    LoadState(1, true), Session(SP.Recover("c", "a", GOING_WELL.(create := Created("b")))), Deliver(1, Delivered)]

  lemma SpoolsOne(me: string)
    ensures Next(me, START.(session := Established(me)), Enqueue("a", ["e"], GOING_WELL, Appended),
                 Waiting(me, InSpool).(spool := Some(SPOOLED)))
  {
    var s := START.(session := Established(me));
    EstablishedFromStart(me);
    assert s.enqueued == map[] && s.place == map[];
    assert NewLine(s, "a", ["e"]) == SPOOLED[0].line;
    assert s.spool == None;
    assert SPOOLED == [] + [Parsed(SPOOLED[0].line, true)];
  }

  lemma ClaimsOne(me: string)
    ensures var claimed := Waiting(me, InClaim(1)).(inflight := map[1 := SPOOLED], drainers := map[1 := Claimed]);
            && Next(me, Waiting(me, InSpool).(spool := Some(SPOOLED)), Claim(1), claimed)
            && Next(me, claimed, Read(1, true),
                    Waiting(me, InMemory(1)).(inflight := map[1 := SPOOLED], drainers := map[1 := HasRead(SPOOLED)]))
  {
    assert IdsOf(SPOOLED) == {0} by {
      assert SPOOLED[0] in SPOOLED;
    }
    assert Move(map[0 := InSpool], {0}, InClaim(1)) == map[0 := InClaim(1)];
    assert Move(map[0 := InClaim(1)], {0}, InMemory(1)) == map[0 := InMemory(1)];
  }

  lemma StartsOff(me: string)
    ensures Next(me, SupersededRun(me)[0], SUPERSEDED_STEPS[0], SupersededRun(me)[1])
  {
    EstablishedFromStart(me);
  }

  lemma LooksOnce(me: string)
    ensures Next(me, SupersededRun(me)[4], LoadState(1, true), SupersededRun(me)[5])
  {
  }

  lemma SendsLate(me: string)
    ensures Next(me, SupersededRun(me)[5], SUPERSEDED_STEPS[5], SupersededRun(me)[6])
    ensures Next(me, SupersededRun(me)[6], SUPERSEDED_STEPS[6], SupersededRun(me)[7])
  {
    ReplacedNext(me);
  }

  lemma SupersededRunIs(me: string)
    ensures Run(me, SupersededRun(me), SUPERSEDED_STEPS)
  {
    var ss, steps := SupersededRun(me), SUPERSEDED_STEPS;
    StartsOff(me);
    SpoolsOne(me);
    ClaimsOne(me);
    LooksOnce(me);
    SendsLate(me);
    assert Run(me, ss, steps);
  }

  /** A run in which a line goes out after its session was replaced. */
  lemma SupersededLineIsSent(me: string) returns (ss: seq<System>, steps: seq<Step>)
    ensures Run(me, ss, steps)
    ensures var last := ss[|steps|];
            |last.writes| == 1 && last.writes[0].line.epoch < EpochOf(last)
              && last.session.disk.value.token != last.writes[0].token
  {
    ss, steps := SupersededRun(me), SUPERSEDED_STEPS;
    SupersededRunIs(me);
  }

  // ----- The drainer's loop

  /** A drainer left alone: its delivery steps one after the other, with these answers from CALM. */
  ghost function DeliverAll(s: System, pid: Pid, outcomes: seq<SendOutcome>): System
    decreases if CanDeliver(s, pid) then |s.drainers[pid].rest| else 0
  {
    if !CanDeliver(s, pid) then s
    else if !Sends(s.drainers[pid].rest[0], s.drainers[pid].seen.epoch) then
      DeliverAll(AfterDeliver(s, pid, Delivered), pid, outcomes)
    else if outcomes == [] then AfterDeliver(s, pid, SendFailed)
    else DeliverAll(AfterDeliver(s, pid, outcomes[0]), pid, outcomes[1..])
  }

  /** The steps of an undisturbed drainer send exactly the lines the delivery loop sends. */
  lemma {:induction false} LoopSendsTheSame(s: System, pid: Pid, outcomes: seq<SendOutcome>)
    requires pid in s.drainers && s.drainers[pid].Delivering?
    ensures var d, s' := s.drainers[pid], DeliverAll(s, pid, outcomes);
            var sent := SentLines(d.rest, d.seen.epoch, outcomes);
            && s'.writes == s.writes + seq(|sent|, i requires 0 <= i < |sent| => Write(sent[i], sent[i].token, d.seen))
            && (Completes(d.rest, d.seen.epoch, outcomes) <==> pid in s'.drainers)
            && (pid in s'.drainers ==> s'.drainers[pid] == Delivering([], d.seen))
    decreases |s.drainers[pid].rest|
  {
    var d := s.drainers[pid];
    if d.rest == [] {
    } else if !Sends(d.rest[0], d.seen.epoch) {
      LoopSendsTheSame(AfterDeliver(s, pid, Delivered), pid, outcomes);
    } else if outcomes != [] && outcomes[0] != SendFailed {
      LoopSendsTheSame(AfterDeliver(s, pid, outcomes[0]), pid, outcomes[1..]);
    }
  }
}
