/** api/store.py and the review handlers of api/routes.py for one analysed application: the database
    tables, the in-process registry that a restart empties, rehydration, and CAM numbering.
    The base analysis is an opaque, deterministic function of its stored snapshot. */
module ReviewStore {
  import opened Base
  import opened Sorting
  import opened Scoring
  import opened Review

  /** A CAM version: its unique id, its number, what it reports, and the one field edited later. */
  datatype Cam = Cam(id: nat, version: nat, overall: real, recommendation: Recommendation, isFinal: bool)

  datatype Command =
    | AddNote(dimension: Option<FiveC>, sentiment: Sentiment, severity: Severity)
    | OverrideScore(override: Override)
    | Finalize
    | Restart

  /** scoreRow is the persisted score snapshot, which only the analysis writes; notes, overrides and
      cams are database tables in insertion order; live and cached are the registry, gone after a
      restart; nextId stands for the id generator. */
  datatype State = State(
    live: Option<CreditScore>, cached: seq<Cam>,
    scoreRow: CreditScore, notes: seq<Note>, overrides: seq<Override>, cams: seq<Cam>, nextId: nat)

  function MakeCam(id: nat, version: nat, s: CreditScore): Cam { Cam(id, version, s.overall, s.recommendation, false) }

  /** Right after the analysis: the score and version 1 cached and persisted. */
  function Analyzed(base: CreditScore): State {
    var cam := MakeCam(0, 1, base);
    State(Some(base), [cam], base, [], [], [cam], 1)
  }

  // ---------------------------------------------------------------------------------------------
  // The handlers as functions of the state.
  // ---------------------------------------------------------------------------------------------

  function Rehydrate(base: CreditScore, s: State): CreditScore {
    if s.live.Some? then s.live.value else Replay(base, s.notes, s.overrides)
  }

  /** load_credit_score, the one read of the score: the live object, or else the snapshot. */
  function Displayed(s: State): CreditScore { if s.live.Some? then s.live.value else s.scoreRow }

  predicate NotAfter(a: Cam, b: Cam) { a.version <= b.version }

  function OrderByVersion(cams: seq<Cam>): seq<Cam> { SortBy(cams, NotAfter) }

  function ListCamVersions(s: State): seq<Cam> {
    if s.cached != [] then s.cached else OrderByVersion(s.cams)
  }

  /** Insert, or update in place the row with the same id. */
  function PersistCam(cams: seq<Cam>, c: Cam): seq<Cam> {
    if cams == [] then [c]
    else if cams[0].id == c.id then [c] + cams[1..]
    else [cams[0]] + PersistCam(cams[1..], c)
  }

  function LastVersion(versions: seq<Cam>): nat { if versions == [] then 0 else versions[|versions| - 1].version }

  /** The version _regenerate_cam makes: one after the last listed. */
  function NextCam(s: State, score: CreditScore): Cam {
    MakeCam(s.nextId, LastVersion(ListCamVersions(s)) + 1, score)
  }

  /** The registry and tables once an override has produced a score. */
  function WithOverride(s: State, o: Override, result: CreditScore): State {
    var cam := NextCam(s, result);
    s.(live := Some(result), cached := s.cached + [cam], cams := PersistCam(s.cams, cam),
       overrides := s.overrides + [o], nextId := s.nextId + 1)
  }

  function WithFinal(s: State): State {
    var versions := ListCamVersions(s);
    if versions == [] then s
    else
      var cam := versions[|versions| - 1].(isFinal := true);
      s.(cached := if s.cached != [] then s.cached[|s.cached| - 1 := cam] else [], cams := PersistCam(s.cams, cam))
  }

  function Apply(base: CreditScore, s: State, c: Command): State {
    match c
    case AddNote(dimension, sentiment, severity) =>
      var e := NoteEvent(dimension, sentiment, severity);
      s.(live := Some(ApplyLive(Rehydrate(base, s), e)), notes := s.notes + [Submit(e)])
    case OverrideScore(o) => WithOverride(s, o, ApplyLive(Rehydrate(base, s), OverrideEvent(o)))
    case Finalize => WithFinal(s)
    case Restart => s.(live := None, cached := [])
  }

  function Run(base: CreditScore, commands: seq<Command>): State {
    if commands == [] then Analyzed(base)
    else Apply(base, Run(base, commands[..|commands| - 1]), commands[|commands| - 1])
  }

  // ---------------------------------------------------------------------------------------------
  // The handlers in place.
  // ---------------------------------------------------------------------------------------------

  /** The live score object the handlers mutate. */
  class LiveScore {
    var dimensions: array<Dimension>
    var overall: real
    var band: RiskBand
    var critical: seq<FiveC>
    var recommendation: Recommendation

    ghost function Value(): CreditScore
      reads this, dimensions
    {
      CreditScore(dimensions[..], overall, band, critical, recommendation)
    }

    constructor (s: CreditScore)
      ensures Value() == s && fresh(dimensions)
    {
      dimensions := new Dimension[|s.dimensions|](i requires 0 <= i < |s.dimensions| => s.dimensions[i]);
      overall, band, critical, recommendation := s.overall, s.band, s.critical, s.recommendation;
    }

    method ApplyNotes(notes: seq<Note>)
      modifies dimensions
      ensures dimensions[..] == NotesAll(old(dimensions[..]), notes)
    {
      ghost var initial := dimensions[..];
      for k := 0 to |notes|
        invariant dimensions[..] == NotesAll(initial, notes[..k])
      {
        assert notes[..k + 1][..k] == notes[..k];
        ghost var before := dimensions[..];
        var note := notes[k];
        for i := 0 to dimensions.Length
          invariant forall j :: 0 <= j < i ==> dimensions[j] == NotedDimension(before[j], note)
          invariant forall j :: i <= j < dimensions.Length ==> dimensions[j] == before[j]
        {
          if note.dimension == Some(dimensions[i].kind) {
            var score := NoteScore(dimensions[i].score, Impact(note));
            dimensions[i] := dimensions[i].(score := score, critical := score < CRITICAL_WEAKNESS_FLOOR);
          }
        }
        assert dimensions[..] == NoteAll(before, note);
      }
      assert notes[..|notes|] == notes;
    }

    method ApplyOverride(o: Override)
      modifies dimensions
      ensures dimensions[..] == OverrideAll(old(dimensions[..]), o)
    {
      for i := 0 to dimensions.Length
        invariant forall j :: 0 <= j < i ==> dimensions[j] == OverriddenDimension(old(dimensions[j]), o)
        invariant forall j :: i <= j < dimensions.Length ==> dimensions[j] == old(dimensions[j])
      {
        if dimensions[i].kind == o.dimension {
          dimensions[i] := Dimension(o.dimension, o.newScore, o.newScore < CRITICAL_WEAKNESS_FLOOR, true);
        }
      }
    }

    method DeriveAll()
      modifies this`overall, this`band, this`critical
      ensures Value() == Recompute(dimensions[..]).(recommendation := recommendation)
    {
      var ds := dimensions[..];
      overall := Overall(ds);
      band := ScoreToRiskBand(overall);
      critical := CriticalWeaknesses(ds);
    }

    method RecomputeOverall()
      modifies this`overall, this`band, this`critical, this`recommendation
      ensures Value() == Recompute(dimensions[..])
    {
      DeriveAll();
      recommendation := Recommend(overall, critical, false);
    }

    /** The score part of the note handler. */
    method TakeNote(note: Note)
      modifies this`overall, this`band, this`critical, this`recommendation, dimensions
      ensures Value() == Recompute(NoteAll(old(dimensions[..]), note))
    {
      assert [note][..0] == [];
      ghost var before := dimensions[..];
      ApplyNotes([note]);
      assert NotesAll(before, [note]) == NoteAll(before, note);
      RecomputeOverall();
    }

    /** The score part of the override handler. */
    method TakeOverride(o: Override)
      modifies this`overall, this`band, this`critical, this`recommendation, dimensions
      ensures Value() == ApplyLive(old(Value()), OverrideEvent(o))
    {
      ApplyOverride(o);
      RecomputeOverall();
    }

    method ReplayAdjustments(notes: seq<Note>, overrides: seq<Override>)
      modifies this`overall, this`band, this`critical, dimensions
      ensures Value() == Replay(old(Value()), notes, overrides)
    {
      ghost var initial := dimensions[..];
      if notes != [] {
        ApplyNotes(notes);
      }
      ghost var noted := dimensions[..];
      for k := 0 to |overrides|
        invariant dimensions[..] == OverridesAll(noted, overrides[..k])
        invariant overall == old(overall) && band == old(band) && critical == old(critical)
      {
        assert overrides[..k + 1][..k] == overrides[..k];
        ApplyOverride(overrides[k]);
      }
      assert overrides[..|overrides|] == overrides;
      if notes != [] || overrides != [] {
        DeriveAll();
      }
    }
  }

  /** The registry and the tables of one application, with base as what analyze makes of the stored
      snapshot. */
  class ReviewStore {
    const base: CreditScore
    var live: LiveScore?
    var cached: seq<Cam>
    var scoreRow: CreditScore
    var notes: seq<Note>
    var overrides: seq<Override>
    var cams: seq<Cam>
    var nextId: nat

    ghost function Model(): State
      reads this, live, if live == null then {} else {live.dimensions}
    {
      State(if live == null then None else Some(live.Value()), cached, scoreRow, notes, overrides, cams, nextId)
    }

    /** _analyze_and_persist, for the application's one analysis. */
    constructor (base: CreditScore)
      ensures this.base == base && Model() == Analyzed(base)
      ensures live != null && fresh(live) && fresh(live.dimensions)
    {
      var score := new LiveScore(base);
      var cam := MakeCam(0, 1, base);
      this.base := base;
      live, cached, scoreRow := score, [cam], base;
      notes, overrides, cams, nextId := [], [], [cam], 1;
    }

    method LoadCreditScore() returns (score: CreditScore)
      ensures score == Displayed(Model())
    {
      if live != null {
        return CreditScore(live.dimensions[..], live.overall, live.band, live.critical, live.recommendation);
      }
      return scoreRow;
    }

    method RehydrateLive() returns (result: LiveScore)
      modifies this`live
      ensures live == result && result.Value() == Rehydrate(base, old(Model()))
      ensures if old(live) != null then live == old(live) else fresh(live) && fresh(live.dimensions)
    {
      if live != null {
        return live;
      }
      result := new LiveScore(base);
      result.ReplayAdjustments(notes, overrides);
      live := result;
    }

    method AddNote(dimension: Option<FiveC>, sentiment: Sentiment, severity: Severity)
      modifies this, live, if live == null then {} else {live.dimensions}
      ensures Model() == Apply(base, old(Model()), Command.AddNote(dimension, sentiment, severity))
    {
      var result := RehydrateLive();
      var note := Submit(NoteEvent(dimension, sentiment, severity));
      result.TakeNote(note);
      notes := notes + [note];
    }

    method OverrideScore(o: Override) returns (version: nat)
      modifies this, live, if live == null then {} else {live.dimensions}
      ensures Model() == Apply(base, old(Model()), Command.OverrideScore(o))
      ensures version == LastVersion(ListCamVersions(old(Model()))) + 1
    {
      var result := RehydrateLive();
      result.TakeOverride(o);
      var versions := if cached != [] then cached else OrderByVersion(cams);
      version := LastVersion(versions) + 1;
      var cam := Cam(nextId, version, result.overall, result.recommendation, false);
      nextId := nextId + 1;
      cached := cached + [cam];
      cams := PersistCam(cams, cam);
      overrides := overrides + [o];
    }

    method FinalizeCam() returns (found: bool)
      modifies this`cached, this`cams
      ensures Model() == Apply(base, old(Model()), Finalize)
      ensures found <==> ListCamVersions(old(Model())) != []
    {
      var versions := if cached != [] then cached else OrderByVersion(cams);
      if versions == [] {
        return false;
      }
      var cam := versions[|versions| - 1].(isFinal := true);
      if cached != [] {
        cached := cached[|cached| - 1 := cam];
      }
      cams := PersistCam(cams, cam);
      return true;
    }

    /** The process restarts: the registry is gone, the tables remain. */
    method RestartProcess()
      modifies this`live, this`cached
      ensures Model() == Apply(base, old(Model()), Restart)
    {
      live, cached := null, [];
    }
  }

  // ---------------------------------------------------------------------------------------------
  // CAM numbering over every run.
  // ---------------------------------------------------------------------------------------------

  function Overrides(commands: seq<Command>): nat {
    if commands == [] then 0
    else Overrides(commands[..|commands| - 1]) + if commands[|commands| - 1].OverrideScore? then 1 else 0
  }

  /** The persisted versions are 1 to n with distinct ids. */
  ghost predicate NumberedCams(cams: seq<Cam>, nextId: nat) {
    && cams != []
    && (forall i :: 0 <= i < |cams| ==> cams[i].version == i + 1 && cams[i].id < nextId)
    && (forall i, j :: 0 <= i < j < |cams| ==> cams[i].id != cams[j].id)
  }

  ghost predicate TailOf(cached: seq<Cam>, cams: seq<Cam>) {
    |cached| <= |cams| && cached == cams[|cams| - |cached|..]
  }

  ghost predicate Numbered(s: State) { NumberedCams(s.cams, s.nextId) && TailOf(s.cached, s.cams) }

  lemma {:induction false} PersistFresh(cams: seq<Cam>, c: Cam)
    requires forall i :: 0 <= i < |cams| ==> cams[i].id != c.id
    ensures PersistCam(cams, c) == cams + [c]
  {
    if cams != [] {
      PersistFresh(cams[1..], c);
    }
  }

  lemma {:induction false} PersistAgain(cams: seq<Cam>, c: Cam, k: nat)
    requires k < |cams| && cams[k].id == c.id && forall i :: 0 <= i < k ==> cams[i].id != c.id
    ensures PersistCam(cams, c) == cams[k := c]
  {
    if k > 0 {
      PersistAgain(cams[1..], c, k - 1);
    }
  }

  /** On a cache hit or a miss the last listed version is the last persisted one. */
  lemma {:induction false} ListedLast(s: State)
    requires Numbered(s)
    ensures ListCamVersions(s) != []
    ensures ListCamVersions(s)[|ListCamVersions(s)| - 1] == s.cams[|s.cams| - 1]
  {
    SortedAlready(s.cams, NotAfter);
  }

  lemma {:induction false} AddVersion(cams: seq<Cam>, cached: seq<Cam>, nextId: nat, cam: Cam)
    requires NumberedCams(cams, nextId) && TailOf(cached, cams) && cam.id == nextId && cam.version == |cams| + 1
    ensures PersistCam(cams, cam) == cams + [cam]
    ensures NumberedCams(cams + [cam], nextId + 1) && TailOf(cached + [cam], cams + [cam])
  {
    PersistFresh(cams, cam);
    assert (cams + [cam])[|cams| - |cached|..] == cached + [cam];
  }

  lemma {:induction false} FinalizeVersion(cams: seq<Cam>, cached: seq<Cam>, nextId: nat)
    requires NumberedCams(cams, nextId) && TailOf(cached, cams)
    ensures var n := |cams| - 1;
      var cam := cams[n].(isFinal := true);
      && PersistCam(cams, cam) == cams[n := cam]
      && NumberedCams(cams[n := cam], nextId)
      && TailOf(if cached != [] then cached[|cached| - 1 := cam] else [], cams[n := cam])
  {
    var n := |cams| - 1;
    var cam := cams[n].(isFinal := true);
    PersistAgain(cams, cam, n);
    if cached != [] {
      assert cams[n := cam][|cams| - |cached|..] == cached[|cached| - 1 := cam];
    }
  }

  /** The table after a command: one more row for an override, the last row final for a finalize. */
  function CamsAfter(base: CreditScore, s: State, c: Command): seq<Cam> {
    if c.OverrideScore? then s.cams + [NextCam(s, ApplyLive(Rehydrate(base, s), OverrideEvent(c.override)))]
    else if c.Finalize? && s.cams != [] then s.cams[|s.cams| - 1 := s.cams[|s.cams| - 1].(isFinal := true)]
    else s.cams
  }

  lemma {:induction false} OverrideKeepsNumbered(s: State, o: Override, result: CreditScore)
    requires Numbered(s)
    ensures Numbered(WithOverride(s, o, result))
    ensures WithOverride(s, o, result).cams == s.cams + [NextCam(s, result)]
      && NextCam(s, result).version == |s.cams| + 1
  {
    ListedLast(s);
    AddVersion(s.cams, s.cached, s.nextId, NextCam(s, result));
  }

  lemma {:induction false} FinalKeepsNumbered(s: State)
    requires Numbered(s)
    ensures Numbered(WithFinal(s))
    ensures WithFinal(s).cams == s.cams[|s.cams| - 1 := s.cams[|s.cams| - 1].(isFinal := true)]
  {
    ListedLast(s);
    FinalizeVersion(s.cams, s.cached, s.nextId);
  }

  lemma {:induction false} StepKeepsNumbered(base: CreditScore, s: State, c: Command)
    requires Numbered(s)
    ensures Numbered(Apply(base, s, c)) && Apply(base, s, c).cams == CamsAfter(base, s, c)
  {
    if c.OverrideScore? {
      OverrideKeepsNumbered(s, c.override, ApplyLive(Rehydrate(base, s), OverrideEvent(c.override)));
    } else if c.Finalize? {
      FinalKeepsNumbered(s);
    }
  }

  /** Main result: after any run of notes, overrides, finalizations and restarts the persisted
      versions are exactly 1 to n with n = 1 + number of overrides, a non-empty cache is a suffix of
      them, and the next version is n + 1 whether the cache was hit or missed. */
  lemma {:induction false} CamNumberingSurvivesRestarts(base: CreditScore, commands: seq<Command>)
    ensures var s := Run(base, commands);
      && Numbered(s)
      && |s.cams| == 1 + Overrides(commands)
      && LastVersion(ListCamVersions(s)) + 1 == |s.cams| + 1
  {
    if commands != [] {
      CamNumberingSurvivesRestarts(base, commands[..|commands| - 1]);
      StepKeepsNumbered(base, Run(base, commands[..|commands| - 1]), commands[|commands| - 1]);
    }
    NextVersion(Run(base, commands));
  }

  lemma NextVersion(s: State)
    requires Numbered(s)
    ensures LastVersion(ListCamVersions(s)) == |s.cams|
  {
    ListedLast(s);
  }

  // ---------------------------------------------------------------------------------------------
  // Which versions are listed.
  // ---------------------------------------------------------------------------------------------

  predicate Restarted(commands: seq<Command>) {
    commands != [] && (commands[|commands| - 1].Restart? || Restarted(commands[..|commands| - 1]))
  }

  function OverridesSinceRestart(commands: seq<Command>): nat {
    if commands == [] then 0
    else
      match commands[|commands| - 1]
      case OverrideScore(_) => OverridesSinceRestart(commands[..|commands| - 1]) + 1
      case Restart => 0
      case _ => OverridesSinceRestart(commands[..|commands| - 1])
  }

  lemma {:induction false} CacheHolds(base: CreditScore, commands: seq<Command>)
    ensures |Run(base, commands).cached|
         == OverridesSinceRestart(commands) + if Restarted(commands) then 0 else 1
    ensures OverridesSinceRestart(commands) <= Overrides(commands)
    ensures !Restarted(commands) ==> OverridesSinceRestart(commands) == Overrides(commands)
  {
    if commands != [] {
      var init, c := commands[..|commands| - 1], commands[|commands| - 1];
      CacheHolds(base, init);
      CamNumberingSurvivesRestarts(base, init);
      CachedAfter(base, Run(base, init), c);
    }
  }

  lemma {:induction false} CachedAfter(base: CreditScore, s: State, c: Command)
    requires Numbered(s)
    ensures |Apply(base, s, c).cached| ==
              if c.OverrideScore? then |s.cached| + 1 else if c.Restart? then 0 else |s.cached|
  {
    ListedLast(s);
  }

  lemma {:induction false} ListedAre(s: State)
    requires Numbered(s)
    ensures ListCamVersions(s) == if s.cached == [] then s.cams else s.cams[|s.cams| - |s.cached|..]
    ensures |ListCamVersions(s)| == if s.cached == [] then |s.cams| else |s.cached|
  {
    SortedAlready(s.cams, NotAfter);
  }

  /** Listing versions shows the whole history exactly when no process restarted, or no override has
      come since the last restart; otherwise only the versions of the overrides since then. */
  lemma {:induction false} WholeHistoryListedExactlyWhen(base: CreditScore, commands: seq<Command>)
    ensures var s, since := Run(base, commands), OverridesSinceRestart(commands);
      && (ListCamVersions(s) == s.cams <==> !Restarted(commands) || since == 0)
      && (Restarted(commands) && since > 0 ==> since < |s.cams| && ListCamVersions(s) == s.cams[|s.cams| - since..])
  {
    CamNumberingSurvivesRestarts(base, commands);
    CacheHolds(base, commands);
    ListedAre(Run(base, commands));
  }

  /** After a restart and an override, version 1 is not listed. */
  lemma {:induction false} AnOverrideCanHideVersionOne(base: CreditScore, o: Override)
    ensures var s := Run(base, [Restart, OverrideScore(o)]);
      |s.cams| == 2 && ListCamVersions(s) == [s.cams[1]] && s.cams[1].version == 2
  {
    var commands := [Restart, OverrideScore(o)];
    assert commands[..1] == [Restart] && [Restart][..0] == [];
    CamNumberingSurvivesRestarts(base, commands);
    WholeHistoryListedExactlyWhen(base, commands);
  }

  /** The version an override writes is the new last one, not final, and reports the live score the
      override has just produced, on a cache hit, a miss or after a restart. */
  lemma {:induction false} OverrideReportsTheLiveScore(base: CreditScore, commands: seq<Command>, o: Override)
    ensures var s, s' := Run(base, commands), Apply(base, Run(base, commands), OverrideScore(o));
      && |s'.cams| == |s.cams| + 1 && s'.live.Some?
      && var cam, live := s'.cams[|s.cams|], s'.live.value;
         !cam.isFinal && cam.version == |s.cams| + 1 && cam.overall == live.overall
         && cam.recommendation == Recommend(live.overall, live.critical, false)
  {
    CamNumberingSurvivesRestarts(base, commands);
    StepKeepsNumbered(base, Run(base, commands), OverrideScore(o));
  }

  /** Finalizing marks the last version, in the table and in the listing, and changes nothing else of it. */
  lemma {:induction false} FinalizeMarksTheLast(base: CreditScore, commands: seq<Command>)
    ensures var s, s' := Run(base, commands), Apply(base, Run(base, commands), Finalize);
      var n := |s.cams|;
      && |s'.cams| == n && n >= 1
      && (forall i :: 0 <= i < n - 1 ==> s'.cams[i] == s.cams[i])
      && s'.cams[n - 1] == Cam(s.cams[n - 1].id, n, s.cams[n - 1].overall, s.cams[n - 1].recommendation, true)
      && ListCamVersions(s') != [] && ListCamVersions(s')[|ListCamVersions(s')| - 1] == s'.cams[n - 1]
  {
    CamNumberingSurvivesRestarts(base, commands);
    StepKeepsNumbered(base, Run(base, commands), Finalize);
    ListedLast(Apply(base, Run(base, commands), Finalize));
  }

  /** Finalizing touches neither the score nor the notes and overrides. */
  lemma FinalizeKeepsTheRest(s: State)
    ensures WithFinal(s).live == s.live && WithFinal(s).notes == s.notes && WithFinal(s).overrides == s.overrides
  {
  }

  /** Later rows may follow; of the earlier ones only the last may change, by becoming final. */
  ghost predicate Extends(cams: seq<Cam>, cams': seq<Cam>) {
    && 1 <= |cams| <= |cams'|
    && (forall i :: 0 <= i < |cams| - 1 ==> cams'[i] == cams[i])
    && var last, last' := cams[|cams| - 1], cams'[|cams| - 1];
       last' == last || last' == last.(isFinal := true)
  }

  lemma ExtendsTransitive(a: seq<Cam>, b: seq<Cam>, c: seq<Cam>)
    requires Extends(a, b) && Extends(b, c)
    ensures Extends(a, c)
  {
  }

  /** No run alters an earlier version, and the latest one changes only by becoming final. */
  lemma {:induction false} CamVersionsArePermanent(base: CreditScore, commands: seq<Command>, more: seq<Command>)
    ensures Extends(Run(base, commands).cams, Run(base, commands + more).cams)
    decreases |more|
  {
    if more == [] {
      CamNumberingSurvivesRestarts(base, commands);
      assert commands + more == commands;
    } else {
      var rest, c := more[..|more| - 1], more[|more| - 1];
      assert commands + more == commands + rest + [c];
      CamVersionsArePermanent(base, commands, rest);
      StepExtends(base, commands + rest, c);
      ExtendsTransitive(Run(base, commands).cams, Run(base, commands + rest).cams,
                        Run(base, commands + rest + [c]).cams);
    }
  }

  lemma {:induction false} StepExtends(base: CreditScore, commands: seq<Command>, c: Command)
    ensures Extends(Run(base, commands).cams, Run(base, commands + [c]).cams)
  {
    assert (commands + [c])[..|commands|] == commands;
    CamNumberingSurvivesRestarts(base, commands);
    StepKeepsNumbered(base, Run(base, commands), c);
  }
}
