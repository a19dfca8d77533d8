/** Scores over every run of review commands with restarts anywhere: the current score, which the next
    review step starts from, and the score shown, which reading it returns. What each is, when it is the
    score of a process that never stopped, and when a fraud veto is in force. */
module Durability {
  import opened Base
  import opened Numeric
  import opened Scoring
  import opened Review
  import opened ReviewStore

  function EventsOf(commands: seq<Command>): seq<Event> {
    if commands == [] then []
    else
      EventsOf(commands[..|commands| - 1]) +
      match commands[|commands| - 1]
      case AddNote(dimension, sentiment, severity) => [NoteEvent(dimension, sentiment, severity)]
      case OverrideScore(o) => [OverrideEvent(o)]
      case _ => []
  }

  lemma {:induction false} EventsSnoc(events: seq<Event>, e: Event)
    ensures NotesOf(events + [e]) == NotesOf(events) + if e.NoteEvent? then [Submit(e)] else []
    ensures OverridesOf(events + [e]) == OverridesOf(events) + if e.OverrideEvent? then [e.override] else []
    ensures forall k :: TrailingNotes(events + [e], k) ==
              if e.OverrideEvent? then if e.override.dimension == k then [] else TrailingNotes(events, k)
              else if e.dimension == Some(k) then TrailingNotes(events, k) + [Submit(e)] else TrailingNotes(events, k)
  {
    assert (events + [e])[..|events|] == events;
  }

  // ---------------------------------------------------------------------------------------------
  // The current score, from the commands alone.
  // ---------------------------------------------------------------------------------------------

  /** The notes on a dimension that still count: those since its last override, except that a restart
      drops them all once the dimension is overridden. */
  function Kept(commands: seq<Command>, k: FiveC): seq<Note> {
    if commands == [] then []
    else
      var init := commands[..|commands| - 1];
      match commands[|commands| - 1]
      case AddNote(dimension, sentiment, severity) =>
        if dimension == Some(k) then Kept(init, k) + [Submit(NoteEvent(dimension, sentiment, severity))]
        else Kept(init, k)
      case OverrideScore(o) => if o.dimension == k then [] else Kept(init, k)
      case Finalize => Kept(init, k)
      case Restart => if LastOverride(OverridesOf(EventsOf(init)), k).Some? then [] else Kept(init, k)
  }

  function CurrentDimension(d: Dimension, commands: seq<Command>): Dimension {
    FoldNotes(Overridden(d, OverridesOf(EventsOf(commands))), Kept(commands, d.kind))
  }

  function CurrentDimensions(base: CreditScore, commands: seq<Command>): seq<Dimension> {
    seq(|base.dimensions|, i requires 0 <= i < |base.dimensions| => CurrentDimension(base.dimensions[i], commands))
  }

  /** A note or an override came after the last restart (or after the analysis). */
  predicate Reviewed(commands: seq<Command>) {
    commands != [] &&
    match commands[|commands| - 1]
    case AddNote(_, _, _) => true
    case OverrideScore(_) => true
    case Finalize => Reviewed(commands[..|commands| - 1])
    case Restart => false
  }

  function CurrentScore(base: CreditScore, commands: seq<Command>): CreditScore {
    var s := Recompute(CurrentDimensions(base, commands));
    if Reviewed(commands) then s else s.(recommendation := base.recommendation)
  }

  ghost predicate SuffixOf(a: seq<Note>, b: seq<Note>) { |a| <= |b| && a == b[|b| - |a|..] }

  lemma SuffixSnoc(a: seq<Note>, b: seq<Note>, n: Note)
    requires SuffixOf(a, b)
    ensures SuffixOf(a + [n], b + [n])
  {
  }

  /** An event as a command, the converse of EventsOf. */
  function CommandOf(e: Event): Command {
    match e
    case NoteEvent(dimension, sentiment, severity) => AddNote(dimension, sentiment, severity)
    case OverrideEvent(o) => OverrideScore(o)
  }

  /** How the command lists' functions grow by an event, and by a command that is none. */
  lemma {:induction false} CommandsSnoc(commands: seq<Command>, c: Command)
    ensures forall e :: c == CommandOf(e) ==> EventsOf(commands + [c]) == EventsOf(commands) + [e]
    ensures c.Finalize? || c.Restart? ==> EventsOf(commands + [c]) == EventsOf(commands)
  {
    assert (commands + [c])[..|commands|] == commands;
  }

  lemma {:induction false} KeptSnoc(commands: seq<Command>, e: Event, k: FiveC)
    ensures Kept(commands + [CommandOf(e)], k) ==
      match e
      case NoteEvent(_, _, _) => if e.dimension == Some(k) then Kept(commands, k) + [Submit(e)] else Kept(commands, k)
      case OverrideEvent(o) => if o.dimension == k then [] else Kept(commands, k)
  {
    assert (commands + [CommandOf(e)])[..|commands|] == commands;
  }

  /** The kept notes are the last of the trailing ones; all of them while there is no override. */
  ghost predicate KeptFits(commands: seq<Command>, k: FiveC) {
    var trailing, kept := TrailingNotes(EventsOf(commands), k), Kept(commands, k);
    && SuffixOf(kept, trailing)
    && (LastOverride(OverridesOf(EventsOf(commands)), k).None? ==> kept == trailing)
  }

  lemma {:induction false} KeptIsSuffix(commands: seq<Command>, k: FiveC)
    ensures KeptFits(commands, k)
  {
    if commands != [] {
      var init, c := commands[..|commands| - 1], commands[|commands| - 1];
      assert commands == init + [c];
      KeptIsSuffix(init, k);
      match c
      case AddNote(d, sentiment, severity) => EventKeepsSuffix(init, NoteEvent(d, sentiment, severity), k);
      case OverrideScore(o) => EventKeepsSuffix(init, OverrideEvent(o), k);
      case _ => OtherKeepsSuffix(init, c, k);
    }
  }

  lemma {:induction false} OtherKeepsSuffix(commands: seq<Command>, c: Command, k: FiveC)
    requires KeptFits(commands, k) && (c.Finalize? || c.Restart?)
    ensures KeptFits(commands + [c], k)
  {
    CommandsSnoc(commands, c);
    assert (commands + [c])[..|commands|] == commands;
  }

  lemma {:induction false} EventKeepsSuffix(commands: seq<Command>, e: Event, k: FiveC)
    requires KeptFits(commands, k)
    ensures KeptFits(commands + [CommandOf(e)], k)
  {
    var events := EventsOf(commands);
    CommandsSnoc(commands, CommandOf(e));
    EventsSnoc(events, e);
    KeptSnoc(commands, e, k);
    if e.NoteEvent? {
      assert OverridesOf(events + [e]) == OverridesOf(events);
      SuffixSnoc(Kept(commands, k), TrailingNotes(events, k), Submit(e));
    } else {
      LastOverrideSnoc(OverridesOf(events), e.override, k);
    }
  }

  lemma {:induction false} CurrentKeepsKind(d: Dimension, commands: seq<Command>)
    ensures CurrentDimension(d, commands).kind == d.kind
  {
    FoldKeepsKind(Overridden(d, OverridesOf(EventsOf(commands))), Kept(commands, d.kind));
  }

  /** One more note or override. */
  lemma {:induction false} CurrentAfterEvent(d: Dimension, commands: seq<Command>, e: Event)
    ensures CurrentDimension(d, commands + [CommandOf(e)]) ==
      if e.NoteEvent? then NotedDimension(CurrentDimension(d, commands), Submit(e))
      else OverriddenDimension(CurrentDimension(d, commands), e.override)
  {
    var events := EventsOf(commands);
    CommandsSnoc(commands, CommandOf(e));
    EventsSnoc(events, e);
    KeptSnoc(commands, e, d.kind);
    CurrentKeepsKind(d, commands);
    if e.NoteEvent? {
      assert OverridesOf(events + [e]) == OverridesOf(events);
      FoldSnoc(Overridden(d, OverridesOf(events)), Kept(commands, d.kind), Submit(e));
    } else {
      LastOverrideSnoc(OverridesOf(events), e.override, d.kind);
    }
  }

  lemma {:induction false} CurrentScoreAfterEvent(base: CreditScore, commands: seq<Command>, e: Event)
    ensures ApplyLive(CurrentScore(base, commands), e) == CurrentScore(base, commands + [CommandOf(e)])
  {
    var ds, ds' := CurrentDimensions(base, commands), CurrentDimensions(base, commands + [CommandOf(e)]);
    forall i | 0 <= i < |ds|
      ensures ds'[i] ==
        if e.NoteEvent? then NotedDimension(ds[i], Submit(e)) else OverriddenDimension(ds[i], e.override)
    {
      CurrentAfterEvent(base.dimensions[i], commands, e);
    }
    assert ds' == if e.NoteEvent? then NoteAll(ds, Submit(e)) else OverrideAll(ds, e.override);
  }

  lemma {:induction false} CurrentAfterRestart(base: CreditScore, commands: seq<Command>)
    requires Consistent(base)
    ensures var events := EventsOf(commands);
      Replay(base, NotesOf(events), OverridesOf(events)) == CurrentScore(base, commands + [Restart])
  {
    var events, after := EventsOf(commands), commands + [Restart];
    assert after[..|commands|] == commands && EventsOf(after) == events;
    var replayed := OverridesAll(NotesAll(base.dimensions, NotesOf(events)), OverridesOf(events));
    forall i: nat | i < 5
      ensures |replayed| == 5 && replayed[i] == CurrentDimension(base.dimensions[i], after)
    {
      var d := base.dimensions[i];
      ReplayIs(base.dimensions, events, i);
      KeptIsSuffix(commands, d.kind);
      if LastOverride(OverridesOf(events), d.kind).None? {
        UnoverriddenKeepsAllNotes(d, events);
      }
    }
    assert replayed == CurrentDimensions(base, after);
    NoEventsNoRows(events);
  }

  lemma {:induction false} TablesHoldEvents(base: CreditScore, commands: seq<Command>)
    ensures Run(base, commands).notes == NotesOf(EventsOf(commands))
    ensures Run(base, commands).overrides == OverridesOf(EventsOf(commands))
  {
    if commands != [] {
      var init, c := commands[..|commands| - 1], commands[|commands| - 1];
      assert commands == init + [c];
      TablesHoldEvents(base, init);
      CommandsSnoc(init, c);
      if c.AddNote? {
        EventsSnoc(EventsOf(init), NoteEvent(c.dimension, c.sentiment, c.severity));
      } else if c.OverrideScore? {
        EventsSnoc(EventsOf(init), OverrideEvent(c.override));
      }
    }
  }

  /** What one command does to the current score. */
  lemma RehydrateAfter(base: CreditScore, s: State, c: Command)
    ensures var s' := Apply(base, s, c);
      match c
      case Finalize => Rehydrate(base, s') == Rehydrate(base, s)
      case Restart => Rehydrate(base, s') == Replay(base, s.notes, s.overrides)
      case AddNote(d, sentiment, severity) =>
        Rehydrate(base, s') == ApplyLive(Rehydrate(base, s), NoteEvent(d, sentiment, severity))
      case OverrideScore(o) => Rehydrate(base, s') == ApplyLive(Rehydrate(base, s), OverrideEvent(o))
  {
  }

  /** The current score of a run is determined by the commands: each dimension is its last
      override (or its base) with the kept notes; everything else follows from the dimensions, except
      that without a review step since the last restart the recommendation is that of the analysis. */
  lemma {:induction false} CurrentScoreIs(base: CreditScore, commands: seq<Command>)
    requires Consistent(base)
    ensures Rehydrate(base, Run(base, commands)) == CurrentScore(base, commands)
  {
    if commands == [] {
      assert CurrentDimensions(base, []) == base.dimensions;
    } else {
      var init, c := commands[..|commands| - 1], commands[|commands| - 1];
      assert commands == init + [c];
      CurrentScoreIs(base, init);
      RehydrateAfter(base, Run(base, init), c);
      match c
      case Finalize =>
        CommandsSnoc(init, c);
        assert CurrentDimensions(base, commands) == CurrentDimensions(base, init);
      case Restart =>
        TablesHoldEvents(base, init);
        CurrentAfterRestart(base, init);
      case AddNote(d, sentiment, severity) => CurrentScoreAfterEvent(base, init, NoteEvent(d, sentiment, severity));
      case OverrideScore(o) => CurrentScoreAfterEvent(base, init, OverrideEvent(o));
    }
  }

  /** With restarts anywhere, the current scores stay in range and everything derived from them
      matches. */
  lemma {:induction false} CurrentScoreStaysConsistent(base: CreditScore, commands: seq<Command>)
    requires Consistent(base) && ValidEvents(EventsOf(commands))
    ensures Consistent(Rehydrate(base, Run(base, commands)))
  {
    if commands != [] {
      var init, c := commands[..|commands| - 1], commands[|commands| - 1];
      assert commands == init + [c];
      assert forall i :: 0 <= i < |EventsOf(init)| ==> EventsOf(init)[i] == EventsOf(commands)[i];
      CurrentScoreStaysConsistent(base, init);
      RehydrateAfter(base, Run(base, init), c);
      match c
      case Finalize =>
      case Restart =>
        TablesHoldEvents(base, init);
        ReplayConsistent(base, EventsOf(init));
      case AddNote(d, sentiment, severity) =>
        ApplyLiveConsistent(Rehydrate(base, Run(base, init)), NoteEvent(d, sentiment, severity));
      case OverrideScore(o) =>
        assert EventsOf(commands)[|EventsOf(init)|] == OverrideEvent(o);
        ApplyLiveConsistent(Rehydrate(base, Run(base, init)), OverrideEvent(o));
    }
  }

  lemma {:induction false} ReplayConsistent(base: CreditScore, events: seq<Event>)
    requires Consistent(base) && ValidEvents(events)
    ensures Consistent(Replay(base, NotesOf(events), OverridesOf(events)))
  {
    OverridesInRange(events);
    AdjustmentsKeepSound(base.dimensions, NotesOf(events), OverridesOf(events));
    OverallInRange(OverridesAll(NotesAll(base.dimensions, NotesOf(events)), OverridesOf(events)));
  }

  // ---------------------------------------------------------------------------------------------
  // When a restart makes no difference to the next review step.
  // ---------------------------------------------------------------------------------------------

  /** On the dimension's last override, the kept notes do what all notes since then do: the notes a
      restart dropped make no difference in the end. */
  ghost predicate LostNotesCancel(commands: seq<Command>, k: FiveC) {
    var last := LastOverride(OverridesOf(EventsOf(commands)), k);
    last.Some? ==>
      var d := Dimension(k, last.value.newScore, last.value.newScore < 30.0, true);
      FoldNotes(d, Kept(commands, k)) == FoldNotes(d, TrailingNotes(EventsOf(commands), k))
  }

  /** With restarts anywhere in the run, the score the next review step starts from is the one a process
      that never stopped would hold, the recommendation (which that step derives again) aside, exactly
      when in every dimension the lost notes cancel. */
  lemma {:induction false} RestartsAreTransparentExactlyWhen(base: CreditScore, commands: seq<Command>)
    requires Consistent(base)
    ensures (Rehydrate(base, Run(base, commands)).(recommendation := base.recommendation)
             == Live(base, EventsOf(commands)).(recommendation := base.recommendation))
       <==> forall k :: LostNotesCancel(commands, k)
  {
    var events := EventsOf(commands);
    var current, live := CurrentDimensions(base, commands), Live(base, events);
    CurrentScoreIs(base, commands);
    LiveTracks(base, events);
    assert live == Recompute(live.dimensions).(recommendation := live.recommendation);
    forall i: nat | i < 5
      ensures current[i] == live.dimensions[i] <==> LostNotesCancel(commands, KINDS[i])
    {
      TrackIs(base.dimensions[i], events);
      KeptIsSuffix(commands, KINDS[i]);
      LastOverrideIsOn(OverridesOf(events), KINDS[i]);
    }
    if forall k :: LostNotesCancel(commands, k) {
      assert current == live.dimensions;
    } else {
      var k :| !LostNotesCancel(commands, k);
      assert KINDS[Index(k)] == k;
      assert current[Index(k)] != live.dimensions[Index(k)];
    }
  }

  /** In particular when no note follows its dimension's last override. */
  lemma {:induction false} ReviewSurvivesRestarts(base: CreditScore, commands: seq<Command>)
    requires Consistent(base) && forall k :: NoTrailingNotes(EventsOf(commands), k)
    ensures Rehydrate(base, Run(base, commands)).(recommendation := base.recommendation)
         == Live(base, EventsOf(commands)).(recommendation := base.recommendation)
  {
    forall k
      ensures LostNotesCancel(commands, k)
    {
      assert NoTrailingNotes(EventsOf(commands), k);
      KeptIsSuffix(commands, k);
    }
    RestartsAreTransparentExactlyWhen(base, commands);
  }

  // ---------------------------------------------------------------------------------------------
  // The score shown.
  // ---------------------------------------------------------------------------------------------

  /** There is a live object: no restart has come since the last review step (or the analysis). */
  predicate HasLive(commands: seq<Command>) {
    commands == [] ||
    match commands[|commands| - 1]
    case AddNote(_, _, _) => true
    case OverrideScore(_) => true
    case Finalize => HasLive(commands[..|commands| - 1])
    case Restart => false
  }

  lemma {:induction false} LiveObjectIs(base: CreditScore, commands: seq<Command>)
    ensures Run(base, commands).live.Some? <==> HasLive(commands)
    ensures Run(base, commands).scoreRow == base
  {
    if commands != [] {
      LiveObjectIs(base, commands[..|commands| - 1]);
    }
  }

  /** The score shown is the current score while there is a live object. After a restart it is that of
      the analysis, whatever the review has made of it, until the next note or override. */
  lemma {:induction false} DisplayedIs(base: CreditScore, commands: seq<Command>)
    requires Consistent(base)
    ensures Displayed(Run(base, commands)) == if HasLive(commands) then CurrentScore(base, commands) else base
  {
    LiveObjectIs(base, commands);
    CurrentScoreIs(base, commands);
  }

  lemma {:induction false} ReviewedAndLive(commands: seq<Command>)
    ensures Reviewed(commands) ==> HasLive(commands) && EventsOf(commands) != []
    ensures HasLive(commands) && !Reviewed(commands) ==> EventsOf(commands) == []
  {
    if commands != [] {
      ReviewedAndLive(commands[..|commands| - 1]);
    }
  }

  /** The review so far has left the analysis as it was. */
  ghost predicate Untouched(base: CreditScore, events: seq<Event>) {
    && (forall i :: 0 <= i < |base.dimensions| ==> Track(base.dimensions[i], events) == base.dimensions[i])
    && (events == [] || base.recommendation == Recommend(base.overall, base.critical, false))
  }

  /** Main result: with restarts anywhere in the run, the score shown, recommendation included, is the
      one a process that never stopped would show exactly when: with a live object, in every dimension
      the lost notes cancel; without one, the review has left the analysis as it was. */
  lemma {:induction false} RestartsAreInvisibleExactlyWhen(base: CreditScore, commands: seq<Command>)
    requires Consistent(base)
    ensures Displayed(Run(base, commands)) == Live(base, EventsOf(commands)) <==>
      if HasLive(commands) then forall k :: LostNotesCancel(commands, k) else Untouched(base, EventsOf(commands))
  {
    DisplayedIs(base, commands);
    ReviewedAndLive(commands);
    if HasLive(commands) {
      CurrentScoreIs(base, commands);
      RestartsAreTransparentExactlyWhen(base, commands);
      SameRecommendation(base, commands);
    } else {
      LiveIsBaseExactlyWhen(base, EventsOf(commands));
    }
  }

  lemma {:induction false} SameRecommendation(base: CreditScore, commands: seq<Command>)
    requires Consistent(base) && HasLive(commands)
    ensures var a, b := CurrentScore(base, commands), Live(base, EventsOf(commands));
      a.(recommendation := base.recommendation) == b.(recommendation := base.recommendation) ==> a == b
  {
    ReviewedAndLive(commands);
  }

  lemma {:induction false} LiveIsBaseExactlyWhen(base: CreditScore, events: seq<Event>)
    requires Consistent(base)
    ensures base == Live(base, events) <==> Untouched(base, events)
  {
    var live := Live(base, events);
    LiveTracks(base, events);
    if events != [] {
      assert live == Recompute(live.dimensions);
      if Untouched(base, events) {
        assert live.dimensions == base.dimensions;
      }
    }
  }

  /** An analysis overrides nothing, so after a restart any override is out of sight, and so are notes
      unless they leave every dimension where it was. */
  lemma {:induction false} OverridesAreHiddenAfterRestart(base: CreditScore, commands: seq<Command>)
    requires Consistent(base) && forall d :: d in base.dimensions ==> !d.overridden
    requires !HasLive(commands)
    ensures var events := EventsOf(commands);
      Displayed(Run(base, commands)).dimensions == Live(base, events).dimensions <==>
        && OverridesOf(events) == []
        && forall i :: 0 <= i < 5 ==>
             FoldNotes(base.dimensions[i], TrailingNotes(events, KINDS[i])) == base.dimensions[i]
  {
    var events := EventsOf(commands);
    var live := Live(base, events).dimensions;
    DisplayedIs(base, commands);
    LiveTracks(base, events);
    forall i: nat | i < 5
      ensures live[i] == FoldNotes(Overridden(base.dimensions[i], OverridesOf(events)), TrailingNotes(events, KINDS[i]))
    {
      TrackIs(base.dimensions[i], events);
    }
    if OverridesOf(events) != [] {
      var o := OverridesOf(events)[|OverridesOf(events)| - 1];
      var d := base.dimensions[Index(o.dimension)];
      assert d.kind == KINDS[Index(o.dimension)] == o.dimension;
      FoldKeepsKind(Overridden(d, OverridesOf(events)), TrailingNotes(events, o.dimension));
      assert live[Index(o.dimension)].overridden && d in base.dimensions;
    }
  }

  /** The score shown is always in range and everything derived in it matches. */
  lemma {:induction false} DisplayedStaysConsistent(base: CreditScore, commands: seq<Command>)
    requires Consistent(base) && ValidEvents(EventsOf(commands))
    ensures Consistent(Displayed(Run(base, commands)))
  {
    LiveObjectIs(base, commands);
    CurrentScoreStaysConsistent(base, commands);
  }

  /** Override a dimension and restart: no notes are lost, yet the override is not shown, and the next
      note, even a neutral one on no dimension, makes it show again. */
  lemma {:induction false} RestartHidesAnOverride(base: CreditScore, o: Override, severity: Severity)
    requires Consistent(base) && base.dimensions[Index(o.dimension)].score != o.newScore
    ensures var commands, i := [OverrideScore(o), Restart], Index(o.dimension);
      && (forall k :: LostNotesCancel(commands, k))
      && Displayed(Run(base, commands)) == base
      && HoldsAt(Live(base, EventsOf(commands)), i, o.newScore)
      && HoldsAt(Displayed(Run(base, commands + [AddNote(None, Neutral, severity)])), i, o.newScore)
  {
    var first, i := [OverrideScore(o)], Index(o.dimension);
    var commands, neutral := first + [Restart], NoteEvent(None, Neutral, severity);
    assert commands == [OverrideScore(o), Restart];
    assert base.dimensions[i].kind == KINDS[i] == o.dimension;
    OneOverride(o);
    RestartGrows(first);
    OneOverrideLoses(o);
    DisplayedIs(base, commands);
    LiveTracks(base, EventsOf(commands));
    TrackIs(base.dimensions[i], EventsOf(commands));
    DisplayedIs(base, commands + [CommandOf(neutral)]);
    CurrentAfterEvent(base.dimensions[i], commands, neutral);
  }

  ghost predicate HoldsAt(s: CreditScore, i: nat, score: real) { i < |s.dimensions| && s.dimensions[i].score == score }

  lemma {:induction false} OneOverrideLoses(o: Override)
    ensures forall k :: LostNotesCancel([OverrideScore(o), Restart], k)
  {
    var first := [OverrideScore(o)];
    assert first + [Restart] == [OverrideScore(o), Restart];
    OneOverride(o);
    RestartGrows(first);
    forall k
      ensures LostNotesCancel([OverrideScore(o), Restart], k)
    {
      KeptIsSuffix(first + [Restart], k);
    }
  }

  const EARLY_RESTART: seq<Command> :=
    [OverrideScore(Override(Capital, 98.5)), AddNote(Some(Capital), Positive, Critical), Restart,
     AddNote(Some(Capital), Adverse, Info)]

  /** A note that a restart loses can show long after: Capital overridden to 98.5, lifted to 100 by a
      positive note, restarted, then noted adverse. All notes together cancel, so a restart at the
      end would not show; but the score is 97, and 98.5 in a process that never stopped. */
  lemma {:induction false} AnEarlierRestartCanShowLater(base: CreditScore)
    requires Consistent(base)
    ensures var current := Displayed(Run(base, EARLY_RESTART)).dimensions;
      var live := Live(base, EventsOf(EARLY_RESTART)).dimensions;
      |current| == |live| == 5 && current[2].score == 97.0 && live[2].score == 98.5
    ensures forall k :: TrailingNotesCancel(EventsOf(EARLY_RESTART), k)
  {
    DisplayedIs(base, EARLY_RESTART);
    LiveTracks(base, EventsOf(EARLY_RESTART));
    TrackIs(base.dimensions[2], EventsOf(EARLY_RESTART));
    EarlyRestartFolds(base.dimensions[2]);
    EarlyRestartIs();
    forall k
      ensures TrailingNotesCancel(EventsOf(EARLY_RESTART), k)
    {
      if k == Capital {
        EarlyRestartFolds(Dimension(Capital, 98.5, false, true));
      }
    }
  }

  const UP := NoteEvent(Some(Capital), Positive, Critical)
  const DOWN := NoteEvent(Some(Capital), Adverse, Info)

  lemma {:induction false} EarlyRestartFolds(d: Dimension)
    requires d.kind == Capital
    ensures Overridden(d, OverridesOf(EventsOf(EARLY_RESTART))) == Dimension(Capital, 98.5, false, true)
    ensures CurrentDimension(d, EARLY_RESTART) == Dimension(Capital, 97.0, false, true)
    ensures FoldNotes(Dimension(Capital, 98.5, false, true), TrailingNotes(EventsOf(EARLY_RESTART), Capital))
         == Dimension(Capital, 98.5, false, true)
  {
    EarlyRestartIs();
    UpAndDown();
    FoldOfTwo(Dimension(Capital, 98.5, false, true), Submit(UP), Submit(DOWN));
    FoldOfTwo(Dimension(Capital, 98.5, false, true), Submit(DOWN), Submit(UP));
  }

  lemma {:induction false} UpAndDown()
    ensures EvaluateNote(Positive, Critical) == 8.0 && EvaluateNote(Adverse, Info) == -1.5
    ensures NoteScore(98.5, 8.0) == 100.0 && NoteScore(100.0, -1.5) == 98.5 && NoteScore(98.5, -1.5) == 97.0
  {
    Round2Spec(8.0);
    Round2Spec(-1.5);
    Round2Spec(100.0);
    Round2Spec(98.5);
    Round2Spec(97.0);
    assert TwoDecimals(8.0) && TwoDecimals(-1.5) && TwoDecimals(100.0) && TwoDecimals(98.5) && TwoDecimals(97.0);
  }

  lemma {:induction false} FoldOfTwo(d: Dimension, m: Note, n: Note)
    ensures FoldNotes(d, [m]) == NotedDimension(d, m)
    ensures FoldNotes(d, [m, n]) == NotedDimension(NotedDimension(d, m), n)
  {
    FoldSnoc(d, [], m);
    FoldSnoc(d, [m], n);
    assert [] + [m] == [m] && [m] + [n] == [m, n];
  }

  lemma {:induction false} EarlyRestartIs()
    ensures OverridesOf(EventsOf(EARLY_RESTART)) == [Override(Capital, 98.5)]
    ensures Kept(EARLY_RESTART, Capital) == [Submit(DOWN)]
    ensures TrailingNotes(EventsOf(EARLY_RESTART), Capital) == [Submit(UP), Submit(DOWN)]
    ensures forall k :: LastOverride([Override(Capital, 98.5)], k)
                     == if k == Capital then Some(Override(Capital, 98.5)) else None
  {
    var o := OverrideEvent(Override(Capital, 98.5));
    var first := [CommandOf(o)];
    var second := first + [CommandOf(UP)];
    var third := second + [Restart];
    assert EARLY_RESTART == third + [CommandOf(DOWN)];
    OneOverride(o.override);
    EventGrows(first, UP);
    RestartGrows(second);
    EventGrows(third, DOWN);
  }

  lemma {:induction false} OneOverride(o: Override)
    ensures EventsOf([OverrideScore(o)]) == [OverrideEvent(o)]
    ensures OverridesOf([OverrideEvent(o)]) == [o]
    ensures forall k :: LastOverride([o], k) == if k == o.dimension then Some(o) else None
    ensures TrailingNotes([OverrideEvent(o)], o.dimension) == []
  {
    assert [OverrideScore(o)][..0] == [] && [OverrideEvent(o)][..0] == [];
    forall k
      ensures LastOverride([o], k) == if k == o.dimension then Some(o) else None
    {
      LastOverrideSnoc([], o, k);
      assert [] + [o] == [o];
    }
  }

  lemma {:induction false} EventGrows(commands: seq<Command>, e: Event)
    requires e.NoteEvent? && e.dimension.Some?
    ensures var more, k := commands + [CommandOf(e)], e.dimension.value;
      && OverridesOf(EventsOf(more)) == OverridesOf(EventsOf(commands))
      && Kept(more, k) == Kept(commands, k) + [Submit(e)]
      && TrailingNotes(EventsOf(more), k) == TrailingNotes(EventsOf(commands), k) + [Submit(e)]
  {
    CommandsSnoc(commands, CommandOf(e));
    EventsSnoc(EventsOf(commands), e);
    KeptSnoc(commands, e, e.dimension.value);
    assert OverridesOf(EventsOf(commands)) + [] == OverridesOf(EventsOf(commands));
  }

  lemma {:induction false} RestartGrows(commands: seq<Command>)
    ensures var more := commands + [Restart];
      && EventsOf(more) == EventsOf(commands)
      && forall k :: LastOverride(OverridesOf(EventsOf(commands)), k).Some? ==> Kept(more, k) == []
  {
    CommandsSnoc(commands, Restart);
    assert (commands + [Restart])[..|commands|] == commands;
  }

  // ---------------------------------------------------------------------------------------------
  // The same condition in arithmetic.
  // ---------------------------------------------------------------------------------------------

  ghost predicate SubmittedOn(notes: seq<Note>, k: FiveC) {
    forall i :: 0 <= i < |notes| ==>
      notes[i].dimension == Some(k) && notes[i].impact == EvaluateNote(notes[i].sentiment, notes[i].severity)
  }

  function Impacts(notes: seq<Note>): seq<real> { seq(|notes|, i requires 0 <= i < |notes| => Impact(notes[i])) }

  lemma {:induction false} TrailingAreSubmitted(events: seq<Event>, k: FiveC)
    ensures SubmittedOn(TrailingNotes(events, k), k)
  {
    if events != [] {
      TrailingAreSubmitted(events[..|events| - 1], k);
    }
  }

  lemma {:induction false} NoteScoreIsClamp(x: real, n: Note)
    requires TwoDecimals(x) && n.impact == EvaluateNote(n.sentiment, n.severity)
    ensures NoteScore(x, Impact(n)) == Clamp(x + Impact(n)) && TwoDecimals(Clamp(x + Impact(n)))
  {
    NoteImpactTwoDecimals(n);
    SumOfTwoDecimals(x, Impact(n));
    assert TwoDecimals(0.0) && TwoDecimals(100.0);
    Round2Spec(Clamp(x + Impact(n)));
  }

  lemma {:induction false} SumOfTwoDecimals(x: real, y: real)
    requires TwoDecimals(x) && TwoDecimals(y)
    ensures TwoDecimals(x + y)
  {
    assert (x + y) * 100.0 == ((x * 100.0).Floor + (y * 100.0).Floor) as real;
  }

  lemma {:induction false} NoteImpactTwoDecimals(n: Note)
    requires n.impact == EvaluateNote(n.sentiment, n.severity)
    ensures TwoDecimals(Impact(n))
  {
    Round2Spec(Max(-15.0, Min(8.0, match n.sentiment
      case Adverse => -15.0 * SeverityFactor(n.severity)
      case Positive => 8.0 * SeverityFactor(n.severity)
      case Neutral => 0.0)));
  }

  /** On a two-decimal score rounding plays no part: the notes push it by their impacts. */
  lemma {:induction false} NotesPushTwoDecimals(d: Dimension, notes: seq<Note>)
    requires SubmittedOn(notes, d.kind) && TwoDecimals(d.score) && (d.critical <==> d.score < 30.0)
    ensures var s := Pushed(d.score, Impacts(notes));
      TwoDecimals(s) && FoldNotes(d, notes) == d.(score := s, critical := s < 30.0)
  {
    if notes == [] {
      assert Impacts(notes) == [];
    } else {
      var init, n := notes[..|notes| - 1], notes[|notes| - 1];
      NotesPushTwoDecimals(d, init);
      assert Impacts(notes)[..|notes| - 1] == Impacts(init);
      NoteScoreIsClamp(Pushed(d.score, Impacts(init)), n);
    }
  }

  /** What notes make of any score: the first one rounds it, and from then on they are pushes. */
  function AfterNotes(score: real, notes: seq<Note>): real {
    if notes == [] then score else Pushed(NoteScore(score, Impact(notes[0])), Impacts(notes[1..]))
  }

  lemma {:induction false} FoldFirst(d: Dimension, notes: seq<Note>)
    requires notes != []
    ensures FoldNotes(d, notes) == FoldNotes(NotedDimension(d, notes[0]), notes[1..])
  {
    if |notes| == 1 {
      assert notes[..0] == [] && notes[1..] == [];
    } else {
      FoldFirst(d, notes[..|notes| - 1]);
      assert notes[..|notes| - 1][1..] == notes[1..][..|notes| - 2];
    }
  }

  /** Rounding acts once: the notes on a dimension round it at the first and then push it by the impacts
      of the others. */
  lemma {:induction false} NotesPush(d: Dimension, notes: seq<Note>)
    requires SubmittedOn(notes, d.kind) && (d.critical <==> d.score < 30.0)
    ensures var s := AfterNotes(d.score, notes); FoldNotes(d, notes) == d.(score := s, critical := s < 30.0)
    ensures notes != [] ==> TwoDecimals(AfterNotes(d.score, notes))
  {
    if notes != [] {
      FoldFirst(d, notes);
      Round2Spec(Clamp(d.score + Impact(notes[0])));
      NotesPushTwoDecimals(NotedDimension(d, notes[0]), notes[1..]);
    }
  }

  /** The trailing notes that some restart dropped. */
  function Lost(commands: seq<Command>, k: FiveC): seq<Note> {
    var trailing, kept := TrailingNotes(EventsOf(commands), k), Kept(commands, k);
    if |kept| <= |trailing| then trailing[..|trailing| - |kept|] else []
  }

  /** The kept notes take the scores x and y to the same one: they are the same, or the first note makes
      them so, or the others drive both to one bound. */
  predicate KeptMerge(x: real, y: real, kept: seq<Note>) {
    if kept == [] then x == y
    else Merges(NoteScore(x, Impact(kept[0])), NoteScore(y, Impact(kept[0])), Impacts(kept[1..]))
  }

  lemma {:induction false} NoteScoreInRange(x: real, impact: real)
    ensures 0.0 <= NoteScore(x, impact) <= 100.0
  {
    Round2Range(Clamp(x + impact), 0, 100);
  }

  lemma {:induction false} KeptMergeIs(x: real, y: real, kept: seq<Note>)
    ensures AfterNotes(x, kept) == AfterNotes(y, kept) <==> KeptMerge(x, y, kept)
  {
    if kept != [] {
      NoteScoreInRange(x, Impact(kept[0]));
      NoteScoreInRange(y, Impact(kept[0]));
      PushedMergesExactlyWhen(NoteScore(x, Impact(kept[0])), NoteScore(y, Impact(kept[0])), Impacts(kept[1..]));
    }
  }

  lemma {:induction false} LostMakeNoDifference(d: Dimension, lost: seq<Note>, kept: seq<Note>)
    requires SubmittedOn(lost, d.kind) && SubmittedOn(kept, d.kind) && (d.critical <==> d.score < 30.0)
    ensures FoldNotes(d, kept) == FoldNotes(d, lost + kept) <==> KeptMerge(AfterNotes(d.score, lost), d.score, kept)
  {
    FoldConcat(d, lost, kept);
    NotesPush(d, lost);
    NotesPush(d, kept);
    NotesPush(FoldNotes(d, lost), kept);
    KeptMergeIs(AfterNotes(d.score, lost), d.score, kept);
  }

  /** In arithmetic: the lost notes cancel exactly when the kept notes take the overridden score, and what
      the lost ones made of it, to the same score. */
  lemma {:induction false} LostNotesCancelExactlyWhen(commands: seq<Command>, k: FiveC)
    requires LastOverride(OverridesOf(EventsOf(commands)), k).Some?
    ensures var x, lost := LastOverride(OverridesOf(EventsOf(commands)), k).value.newScore, Lost(commands, k);
      LostNotesCancel(commands, k) <==> KeptMerge(AfterNotes(x, lost), x, Kept(commands, k))
  {
    var x := LastOverride(OverridesOf(EventsOf(commands)), k).value.newScore;
    KeptIsSuffix(commands, k);
    TrailingAreSubmitted(EventsOf(commands), k);
    assert TrailingNotes(EventsOf(commands), k) == Lost(commands, k) + Kept(commands, k);
    PartsAreSubmitted(Lost(commands, k), Kept(commands, k), k);
    LostMakeNoDifference(Dimension(k, x, x < 30.0, true), Lost(commands, k), Kept(commands, k));
  }

  lemma PartsAreSubmitted(a: seq<Note>, b: seq<Note>, k: FiveC)
    requires SubmittedOn(a + b, k)
    ensures SubmittedOn(a, k) && SubmittedOn(b, k)
  {
    assert forall i :: 0 <= i < |a| ==> a[i] == (a + b)[i];
    assert forall i :: 0 <= i < |b| ==> b[i] == (a + b)[|a| + i];
  }

  lemma {:induction false} FoldConcat(d: Dimension, a: seq<Note>, b: seq<Note>)
    ensures FoldNotes(d, a + b) == FoldNotes(FoldNotes(d, a), b)
    decreases |b|
  {
    if b == [] {
      assert a + b == a;
    } else {
      FoldConcat(d, a, b[..|b| - 1]);
      assert (a + b)[..|a + b| - 1] == a + b[..|b| - 1];
    }
  }

  // ---------------------------------------------------------------------------------------------
  // The recommendation, and the fraud veto in it.
  // ---------------------------------------------------------------------------------------------

  /** The scores lead to rejection whatever the fraud report says. */
  predicate ScoresReject(s: CreditScore) {
    (s.overall < 65.0 || s.critical != []) && (s.overall < 50.0 || |s.critical| > 1)
  }

  /** Over any run the recommendation shown is the one the full rule gives to the score shown exactly
      when no review step followed the last restart (or the analysis), there is no critical fraud, or
      the scores alone reject. */
  lemma {:induction false} RecommendationIsCurrentExactlyWhen(base: CreditScore, commands: seq<Command>, fraud: bool)
    requires Consistent(base) && base.recommendation == Recommend(base.overall, base.critical, fraud)
    ensures var shown := Displayed(Run(base, commands));
      shown.recommendation == Recommend(shown.overall, shown.critical, fraud) <==>
        !Reviewed(commands) || !fraud || ScoresReject(CurrentScore(base, commands))
  {
    DisplayedIs(base, commands);
    ReviewedAndLive(commands);
    NotReviewedIsBase(base, commands);
  }

  lemma {:induction false} NotReviewedIsBase(base: CreditScore, commands: seq<Command>)
    requires Consistent(base)
    ensures !Reviewed(commands) ==> Displayed(Run(base, commands)) == base
  {
    DisplayedIs(base, commands);
    ReviewedAndLive(commands);
    if HasLive(commands) && !Reviewed(commands) {
      RestartsAreInvisibleExactlyWhen(base, commands);
    }
  }

  /** So the veto of critical fraud is in force exactly when no review step followed the last restart
      (or the analysis), or the scores alone reject. */
  lemma {:induction false} FraudVetoInForceExactlyWhen(base: CreditScore, commands: seq<Command>)
    requires Consistent(base) && base.recommendation == Recommend(base.overall, base.critical, true)
    ensures Displayed(Run(base, commands)).recommendation == Reject <==>
              !Reviewed(commands) || ScoresReject(CurrentScore(base, commands))
  {
    DisplayedIs(base, commands);
    ReviewedAndLive(commands);
    NotReviewedIsBase(base, commands);
  }

  /** On an application rejected for critical fraud alone a neutral note on no dimension yields an
      approval, and a restart takes it back. */
  lemma {:induction false} VetoGoesAndComesBack(ds: seq<Dimension>, severity: Severity)
    requires SoundDimensions(ds) && Overall(ds) >= 65.0 && CriticalWeaknesses(ds) == []
    ensures var base, note := Synthesize(ds, true), AddNote(None, Neutral, severity);
      && Displayed(Run(base, [note])).recommendation == Approve
      && Displayed(Run(base, [note, Restart])).recommendation == Reject
  {
    var base, note := Synthesize(ds, true), AddNote(None, Neutral, severity);
    OverallInRange(ds);
    NeutralNoteLiftsTheFraudVeto(ds, severity);
    assert [note][..0] == [] && [note, Restart][..1] == [note];
    assert Run(base, [note]) == Apply(base, Analyzed(base), note);
    FraudVetoInForceExactlyWhen(base, [note, Restart]);
  }

  /** The other way round, an approval comes back too: overriding any dimension of an approved
      application to 0 ends the approval, and a restart shows it again. */
  lemma {:induction false} RestartRevivesAnApproval(base: CreditScore, k: FiveC)
    requires Consistent(base) && base.recommendation == Approve
    ensures var first := [OverrideScore(Override(k, 0.0))];
      && Displayed(Run(base, first)).recommendation != Approve
      && Displayed(Run(base, first + [Restart])).recommendation == Approve
  {
    var o := Override(k, 0.0);
    var first := [OverrideScore(o)];
    var shown := Displayed(Run(base, first));
    OneOverride(o);
    DisplayedIs(base, first);
    DisplayedIs(base, first + [Restart]);
    DisplayedStaysConsistent(base, first);
    assert base.dimensions[Index(k)].kind == KINDS[Index(k)] == k;
    assert first == [] + [CommandOf(OverrideEvent(o))];
    CurrentAfterEvent(base.dimensions[Index(k)], [], OverrideEvent(o));
    CriticalBarsApproval(shown, k);
  }

  lemma {:induction false} CriticalBarsApproval(s: CreditScore, k: FiveC)
    requires Consistent(s) && s.dimensions[Index(k)].score < 30.0
    ensures Recommend(s.overall, s.critical, false) != Approve
  {
    assert s.dimensions[Index(k)].kind == KINDS[Index(k)] == k;
    CriticalWeaknessesAre(s.dimensions, k);
    assert s.dimensions[Index(k)] in s.dimensions;
  }
}
