/**
 The staleness-token registry (internal/adapter/capture/registry.go) against the log of what was
 recorded: a printed label validates exactly while its token is the last one recorded for it.
 */
module TokenRegistry {
  import opened Wrappers
  import opened Decimal
  import opened Labels

  // ----- The log

  datatype Event = Recorded(source: string, token: string) | WasReset | Loaded(tokens: map<string, string>)

  /** An empty source or token is not recorded. */
  function Applied(tokens: map<string, string>, e: Event): map<string, string> {
    match e
    case Recorded(source, token) => if source == "" || token == "" then tokens else tokens[source := token]
    case WasReset => map[]
    case Loaded(restored) => restored
  }

  function Replayed(log: seq<Event>): map<string, string> {
    if log == [] then map[] else Applied(Replayed(log[..|log| - 1]), log[|log| - 1])
  }

  /** The last token recorded for a source since the last reset, or the one restored since. */
  function LastRecorded(log: seq<Event>, source: string): Option<string> {
    if log == [] then None
    else
      match log[|log| - 1]
      case WasReset => None
      case Loaded(restored) => if source in restored then Some(restored[source]) else None
      case Recorded(s, token) =>
        if s == source && s != "" && token != "" then Some(token) else LastRecorded(log[..|log| - 1], source)
  }

  lemma {:induction false} ReplayedIsLastRecorded(log: seq<Event>, source: string)
    ensures LastRecorded(log, source) == if source in Replayed(log) then Some(Replayed(log)[source]) else None
  {
    if log != [] && log[|log| - 1].Recorded? {
      ReplayedIsLastRecorded(log[..|log| - 1], source);
    }
  }

  // ----- Validation

  function Key(s: Source): string {
    Numbered(s.base, s.seqNo)
  }

  /** The label CALM gets to see, if the caller's label passes. */
  function Validated(tokens: map<string, string>, l: string): Option<string> {
    var s := ParseSource(l);
    if s.token == "" then if NoAt(l) then Some(l) else None
    else if Key(s) in tokens && tokens[Key(s)] == s.token then Some(Key(s))
    else None
  }

  class Registry {
    var tokens: map<string, string>
    ghost var log: seq<Event>

    constructor ()
      ensures Valid() && log == []
    {
      tokens, log := map[], [];
    }

    ghost predicate Valid()
      reads this
    {
      tokens == Replayed(log)
    }

    method Record(source: string, token: string)
      requires Valid()
      modifies this
      ensures Valid() && log == old(log) + [Recorded(source, token)]
    {
      log := log + [Recorded(source, token)];
      assert log[..|log| - 1] == old(log);
      if source == "" || token == "" {
        return;
      }
      tokens := tokens[source := token];
    }

    method Reset()
      requires Valid()
      modifies this
      ensures Valid() && log == old(log) + [WasReset]
    {
      log := log + [WasReset];
      tokens := map[];
    }

    method Snapshot() returns (copy: map<string, string>)
      requires Valid()
      ensures copy == Replayed(log)
    {
      return tokens;
    }

    method Load(restored: map<string, string>)
      requires Valid()
      modifies this
      ensures Valid() && log == old(log) + [Loaded(restored)]
    {
      log := log + [Loaded(restored)];
      tokens := restored;
    }

    method ValidateAndStrip(l: string) returns (calmLabel: Option<string>)
      requires Valid()
      ensures calmLabel == Validated(Replayed(log), l)
    {
      var s := ParseSource(l);
      if s.token == "" {
        if !NoAt(l) {
          return None;
        }
        return Some(l);
      }
      var key := s.base;
      if s.seqNo >= 0 {
        key := s.base + "#" + Format(s.seqNo);
        assert key == Key(s);
      }
      if key !in tokens || tokens[key] != s.token {
        return None;
      }
      return Some(key);
    }
  }

  // ----- What validation means

  /**
   A label printed for a source with a token passes exactly when that token is the last one recorded
   for that source, and then it is stripped to the very key it was recorded under.
   */
  lemma PrintedLabelValidatesIffCurrent(log: seq<Event>, s: Source)
    requires Plain(s.base) && -1 <= s.seqNo < INT64_LIMIT && ValidToken(s.token)
    ensures Validated(Replayed(log), FuseSource(Key(s), s.token))
            == if LastRecorded(log, Key(s)) == Some(s.token) then Some(Key(s)) else None
  {
    PrintedIsParsed(s);
    ReplayedIsLastRecorded(log, Key(s));
  }

  /** The source printed with this token passes exactly when it is the last one recorded, and comes out bare. */
  ghost predicate PassesIffCurrent(log: seq<Event>, source: string, token: string) {
    Validated(Replayed(log), FuseSource(source, token))
      == if LastRecorded(log, source) == Some(token) then Some(source) else None
  }

  /** For the labels that plans produce: current means recorded last, for latest and history alike. */
  lemma PlannedLabelsValidateIffCurrent(log: seq<Event>, mode: Mode, id: LabelId, workspace: string, seqNo: nat,
                                        hash: Hash, token: string)
    requires seqNo < INT64_LIMIT && ValidToken(token)
    ensures var plan := PlanFor(mode, id, workspace, seqNo, hash);
            && (plan.latest != "" ==> PassesIffCurrent(log, plan.latest, token))
            && (plan.history != "" ==> PassesIffCurrent(log, plan.history, token))
  {
    BaseValidates(log, id, workspace, 0, hash, -1, token);
    BaseValidates(log, id, workspace, MAX_SEQ_SUFFIX, hash, -1, token);
    BaseValidates(log, id, workspace, MAX_SEQ_SUFFIX, hash, seqNo, token);
  }

  lemma BaseValidates(log: seq<Event>, id: LabelId, workspace: string, reserve: nat, hash: Hash, seqNo: int,
                      token: string)
    requires (reserve == 0 || reserve == MAX_SEQ_SUFFIX) && -1 <= seqNo < INT64_LIMIT && ValidToken(token)
    ensures PassesIffCurrent(log, Numbered(Base(id, workspace, reserve, hash), seqNo), token)
  {
    BaseIsPlainAndShort(id, workspace, reserve, hash);
    PrintedLabelValidatesIffCurrent(log, Source(Base(id, workspace, reserve, hash), seqNo, token));
  }

  /**
   Any label whatsoever: without an `@` it passes unchanged, with one it passes exactly when it
   ends in a well-formed token that is the last one recorded for the key it names.
   */
  lemma AnyLabel(log: seq<Event>, l: string)
    ensures NoAt(l) ==> Validated(Replayed(log), l) == Some(l)
    ensures !NoAt(l) ==>
              var s := ParseSource(l);
              && (Validated(Replayed(log), l).Some?
                  <==> ValidToken(s.token) && LastRecorded(log, Key(s)) == Some(s.token))
              && (Validated(Replayed(log), l).Some? ==> Validated(Replayed(log), l).value == Key(s))
  {
    ReplayedIsLastRecorded(log, Key(ParseSource(l)));
    if NoAt(l) {
      NoTokenIsRead(l);
    }
  }
}
