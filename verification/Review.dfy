/** Officer review of a scored application: notes (services/scoring.py) and overrides
    (api/routes.py) applied as they arrive, and their replay after a restart (api/store.py). */
module Review {
  import opened Base
  import opened Numeric
  import opened Scoring

  /** A note as stored: its impact was computed when it was submitted. */
  datatype Note = Note(dimension: Option<FiveC>, sentiment: Sentiment, severity: Severity, impact: real)

  datatype Override = Override(dimension: FiveC, newScore: real)

  datatype Event = NoteEvent(dimension: Option<FiveC>, sentiment: Sentiment, severity: Severity)
                 | OverrideEvent(override: Override)

  // ---------------------------------------------------------------------------------------------
  // Notes.
  // ---------------------------------------------------------------------------------------------

  function SeverityFactor(s: Severity): real {
    match s
    case Critical => 1.0
    case High => 0.75
    case Medium => 0.5
    case Low => 0.25
    case Info => 0.1
  }

  function EvaluateNote(sentiment: Sentiment, severity: Severity): real {
    var impact := match sentiment
      case Adverse => -15.0 * SeverityFactor(severity)
      case Positive => 8.0 * SeverityFactor(severity)
      case Neutral => 0.0;
    Round2(Max(-15.0, Min(8.0, impact)))
  }

  /** An impact lies in -15 to 8, has the sentiment's sign, and is zero for neutral notes only;
      a non-zero one moves a score by at least 0.8. */
  lemma {:induction false} NoteImpactRange(sentiment: Sentiment, severity: Severity)
    ensures var i := EvaluateNote(sentiment, severity);
      match sentiment
      case Adverse => -15.0 <= i <= -1.5
      case Positive => 0.8 <= i <= 8.0
      case Neutral => i == 0.0
  {
    var impact := match sentiment
      case Adverse => -15.0 * SeverityFactor(severity)
      case Positive => 8.0 * SeverityFactor(severity)
      case Neutral => 0.0;
    assert TwoDecimals(impact);
    Round2Spec(impact);
  }

  function Submit(e: Event): Note
    requires e.NoteEvent?
  {
    Note(e.dimension, e.sentiment, e.severity, EvaluateNote(e.sentiment, e.severity))
  }

  /** The impact apply_qualitative_notes uses: a zero one is evaluated again. */
  function Impact(n: Note): real { if n.impact == 0.0 then EvaluateNote(n.sentiment, n.severity) else n.impact }

  function NoteScore(score: real, impact: real): real { Round2(Clamp(score + impact)) }

  function NotedDimension(d: Dimension, n: Note): Dimension {
    if n.dimension == Some(d.kind) then
      var s := NoteScore(d.score, Impact(n));
      d.(score := s, critical := s < CRITICAL_WEAKNESS_FLOOR)
    else d
  }

  function NoteAll(ds: seq<Dimension>, n: Note): seq<Dimension> {
    seq(|ds|, i requires 0 <= i < |ds| => NotedDimension(ds[i], n))
  }

  function NotesAll(ds: seq<Dimension>, notes: seq<Note>): seq<Dimension> {
    if notes == [] then ds else NoteAll(NotesAll(ds, notes[..|notes| - 1]), notes[|notes| - 1])
  }

  function OverriddenDimension(d: Dimension, o: Override): Dimension {
    if d.kind == o.dimension then
      Dimension(d.kind, o.newScore, o.newScore < CRITICAL_WEAKNESS_FLOOR, true)
    else d
  }

  function OverrideAll(ds: seq<Dimension>, o: Override): seq<Dimension> {
    seq(|ds|, i requires 0 <= i < |ds| => OverriddenDimension(ds[i], o))
  }

  function OverridesAll(ds: seq<Dimension>, overrides: seq<Override>): seq<Dimension> {
    if overrides == [] then ds
    else OverrideAll(OverridesAll(ds, overrides[..|overrides| - 1]), overrides[|overrides| - 1])
  }

  // ---------------------------------------------------------------------------------------------
  // The live path and the replay path on whole scores.
  // ---------------------------------------------------------------------------------------------

  /** _recompute_overall: the fraud report is not consulted again. */
  function Recompute(ds: seq<Dimension>): CreditScore { Synthesize(ds, false) }

  function ApplyLive(s: CreditScore, e: Event): CreditScore {
    Recompute(if e.NoteEvent? then NoteAll(s.dimensions, Submit(e)) else OverrideAll(s.dimensions, e.override))
  }

  function Live(base: CreditScore, events: seq<Event>): CreditScore {
    if events == [] then base else ApplyLive(Live(base, events[..|events| - 1]), events[|events| - 1])
  }

  function NotesOf(events: seq<Event>): seq<Note> {
    if events == [] then []
    else
      var e := events[|events| - 1];
      NotesOf(events[..|events| - 1]) + if e.NoteEvent? then [Submit(e)] else []
  }

  function OverridesOf(events: seq<Event>): seq<Override> {
    if events == [] then []
    else
      var e := events[|events| - 1];
      OverridesOf(events[..|events| - 1]) + if e.OverrideEvent? then [e.override] else []
  }

  /** _replay_adjustments: all notes, then all overrides; everything but the recommendation is
      derived again. */
  function Replay(base: CreditScore, notes: seq<Note>, overrides: seq<Override>): CreditScore {
    if notes == [] && overrides == [] then base
    else Recompute(OverridesAll(NotesAll(base.dimensions, notes), overrides)).(recommendation := base.recommendation)
  }

  /** The schema's bound on a new score. */
  predicate ValidEvent(e: Event) { e.OverrideEvent? ==> 0.0 <= e.override.newScore <= 100.0 }

  ghost predicate ValidEvents(events: seq<Event>) { forall i :: 0 <= i < |events| ==> ValidEvent(events[i]) }

  /** Sound dimensions and everything derived from them, the recommendation aside. */
  ghost predicate Consistent(s: CreditScore) {
    && SoundDimensions(s.dimensions)
    && s.overall == Overall(s.dimensions) && 0.0 <= s.overall <= 100.0
    && s.band == ScoreToRiskBand(s.overall)
    && s.critical == CriticalWeaknesses(s.dimensions)
  }

  lemma {:induction false} ApplyLiveConsistent(s: CreditScore, e: Event)
    requires SoundDimensions(s.dimensions) && ValidEvent(e)
    ensures Consistent(ApplyLive(s, e))
    ensures ApplyLive(s, e).recommendation == Recommend(ApplyLive(s, e).overall, ApplyLive(s, e).critical, false)
  {
    if e.NoteEvent? {
      NoteKeepsSound(s.dimensions, Submit(e));
    }
    OverallInRange(ApplyLive(s, e).dimensions);
  }

  lemma {:induction false} NoteKeepsSound(ds: seq<Dimension>, n: Note)
    requires SoundDimensions(ds)
    ensures SoundDimensions(NoteAll(ds, n))
  {
    forall i | 0 <= i < 5
      ensures 0.0 <= NoteAll(ds, n)[i].score <= 100.0
    {
      Round2Range(Clamp(ds[i].score + Impact(n)), 0, 100);
    }
  }

  lemma {:induction false} AdjustmentsKeepSound(ds: seq<Dimension>, notes: seq<Note>, overrides: seq<Override>)
    requires SoundDimensions(ds)
    requires forall i :: 0 <= i < |overrides| ==> 0.0 <= overrides[i].newScore <= 100.0
    ensures SoundDimensions(OverridesAll(NotesAll(ds, notes), overrides))
    decreases |notes| + |overrides|
  {
    if overrides != [] {
      AdjustmentsKeepSound(ds, notes, overrides[..|overrides| - 1]);
    } else if notes != [] {
      AdjustmentsKeepSound(ds, notes[..|notes| - 1], []);
      NoteKeepsSound(NotesAll(ds, notes[..|notes| - 1]), notes[|notes| - 1]);
    }
  }

  lemma {:induction false} OverridesInRange(events: seq<Event>)
    requires ValidEvents(events)
    ensures forall i :: 0 <= i < |OverridesOf(events)| ==> 0.0 <= OverridesOf(events)[i].newScore <= 100.0
  {
    if events != [] {
      OverridesInRange(events[..|events| - 1]);
    }
  }

  /** Main result: over every sequence of notes and overrides the score stays consistent, and after
      each live step the recommendation is recommend without fraud. */
  lemma {:induction false} ReviewStaysConsistent(base: CreditScore, events: seq<Event>)
    requires Consistent(base) && ValidEvents(events)
    ensures var s := Live(base, events);
      Consistent(s) && (events != [] ==> s.recommendation == Recommend(s.overall, s.critical, false))
  {
    if events != [] {
      ReviewStaysConsistent(base, events[..|events| - 1]);
      ApplyLiveConsistent(Live(base, events[..|events| - 1]), events[|events| - 1]);
    }
  }

  /** Any live step, even a neutral note on no dimension, derives the recommendation again without the
      fraud report: on an application rejected for critical fraud alone that note changes no score and
      turns the recommendation into an approval. */
  lemma {:induction false} NeutralNoteLiftsTheFraudVeto(ds: seq<Dimension>, severity: Severity)
    requires SoundDimensions(ds) && Overall(ds) >= 65.0 && CriticalWeaknesses(ds) == []
    ensures var s := Synthesize(ds, true);
      var s' := ApplyLive(s, NoteEvent(None, Neutral, severity));
      s.recommendation == Reject && s'.recommendation == Approve && s'.dimensions == s.dimensions
  {
    assert NoteAll(ds, Submit(NoteEvent(None, Neutral, severity))) == ds;
  }

  // ---------------------------------------------------------------------------------------------
  // One dimension at a time.
  // ---------------------------------------------------------------------------------------------

  function Index(k: FiveC): nat {
    match k
    case Character => 0
    case Capacity => 1
    case Capital => 2
    case Collateral => 3
    case Conditions => 4
  }

  /** What the events do to one dimension, in arrival order. */
  function Track(d: Dimension, events: seq<Event>): Dimension {
    if events == [] then d
    else
      var e := events[|events| - 1];
      var before := Track(d, events[..|events| - 1]);
      if e.NoteEvent? then NotedDimension(before, Submit(e)) else OverriddenDimension(before, e.override)
  }

  /** The notes that follow the dimension's last override, or all its notes if it has none. */
  function TrailingNotes(events: seq<Event>, k: FiveC): seq<Note> {
    if events == [] then []
    else
      var e := events[|events| - 1];
      var init := TrailingNotes(events[..|events| - 1], k);
      if e.OverrideEvent? then if e.override.dimension == k then [] else init
      else if e.dimension == Some(k) then init + [Submit(e)] else init
  }

  function LastOverride(overrides: seq<Override>, k: FiveC): Option<Override> {
    if overrides == [] then None
    else
      var o := overrides[|overrides| - 1];
      if o.dimension == k then Some(o) else LastOverride(overrides[..|overrides| - 1], k)
  }

  function FoldNotes(d: Dimension, notes: seq<Note>): Dimension {
    if notes == [] then d else NotedDimension(FoldNotes(d, notes[..|notes| - 1]), notes[|notes| - 1])
  }

  lemma {:induction false} LiveTracks(base: CreditScore, events: seq<Event>)
    requires FiveDimensions(base.dimensions)
    ensures FiveDimensions(Live(base, events).dimensions)
    ensures forall i :: 0 <= i < 5 ==> Live(base, events).dimensions[i] == Track(base.dimensions[i], events)
  {
    if events != [] {
      LiveTracks(base, events[..|events| - 1]);
    }
  }

  lemma {:induction false} NotesTrack(ds: seq<Dimension>, notes: seq<Note>)
    ensures |NotesAll(ds, notes)| == |ds|
    ensures forall i :: 0 <= i < |ds| ==> NotesAll(ds, notes)[i] == FoldNotes(ds[i], notes)
  {
    if notes != [] {
      NotesTrack(ds, notes[..|notes| - 1]);
    }
  }

  /** What a list of overrides makes of one dimension: the last one on it counts. */
  function Overridden(d: Dimension, overrides: seq<Override>): Dimension {
    var last := LastOverride(overrides, d.kind);
    if last.Some? then OverriddenDimension(d, last.value) else d
  }

  lemma {:induction false} LastOverrideIsOn(overrides: seq<Override>, k: FiveC)
    ensures LastOverride(overrides, k).Some? ==> LastOverride(overrides, k).value.dimension == k
  {
    if overrides != [] {
      LastOverrideIsOn(overrides[..|overrides| - 1], k);
    }
  }

  lemma {:induction false} OverridesTrack(ds: seq<Dimension>, overrides: seq<Override>, i: nat)
    requires i < |ds|
    ensures |OverridesAll(ds, overrides)| == |ds| && OverridesAll(ds, overrides)[i] == Overridden(ds[i], overrides)
  {
    if overrides != [] {
      OverridesTrack(ds, overrides[..|overrides| - 1], i);
      LastOverrideIsOn(overrides[..|overrides| - 1], ds[i].kind);
    }
  }

  lemma {:induction false} FoldKeepsKind(d: Dimension, notes: seq<Note>)
    ensures FoldNotes(d, notes).kind == d.kind && FoldNotes(d, notes).overridden == d.overridden
  {
    if notes != [] {
      FoldKeepsKind(d, notes[..|notes| - 1]);
    }
  }

  lemma {:induction false} FoldSnoc(d: Dimension, notes: seq<Note>, n: Note)
    ensures FoldNotes(d, notes + [n]) == NotedDimension(FoldNotes(d, notes), n)
  {
    assert (notes + [n])[..|notes|] == notes;
  }

  lemma {:induction false} LastOverrideSnoc(overrides: seq<Override>, o: Override, k: FiveC)
    ensures LastOverride(overrides + [o], k) == if o.dimension == k then Some(o) else LastOverride(overrides, k)
  {
    assert (overrides + [o])[..|overrides|] == overrides;
  }

  /** Live, a dimension is its last override (or its base) with the notes that came after. */
  lemma {:induction false} TrackIs(d: Dimension, events: seq<Event>)
    ensures Track(d, events) == FoldNotes(Overridden(d, OverridesOf(events)), TrailingNotes(events, d.kind))
  {
    if events != [] {
      var init, e := events[..|events| - 1], events[|events| - 1];
      TrackIs(d, init);
      var start := Overridden(d, OverridesOf(init));
      FoldKeepsKind(start, TrailingNotes(init, d.kind));
      LastOverrideIsOn(OverridesOf(init), d.kind);
      if e.NoteEvent? {
        assert OverridesOf(events) == OverridesOf(init);
        FoldSnoc(start, TrailingNotes(init, d.kind), Submit(e));
      } else {
        LastOverrideSnoc(OverridesOf(init), e.override, d.kind);
      }
    }
  }

  lemma {:induction false} UnoverriddenKeepsAllNotes(d: Dimension, events: seq<Event>)
    requires LastOverride(OverridesOf(events), d.kind).None?
    ensures FoldNotes(d, TrailingNotes(events, d.kind)) == FoldNotes(d, NotesOf(events))
  {
    if events != [] {
      var init, e := events[..|events| - 1], events[|events| - 1];
      if e.NoteEvent? {
        assert OverridesOf(events) == OverridesOf(init);
        UnoverriddenKeepsAllNotes(d, init);
        FoldKeepsKind(d, NotesOf(init));
        FoldSnoc(d, TrailingNotes(init, d.kind), Submit(e));
        FoldSnoc(d, NotesOf(init), Submit(e));
      } else {
        LastOverrideSnoc(OverridesOf(init), e.override, d.kind);
        assert NotesOf(events) == NotesOf(init);
        UnoverriddenKeepsAllNotes(d, init);
      }
    }
  }

  /** Replayed, it is the last override alone, or the base with all its notes. */
  lemma {:induction false} ReplayIs(ds: seq<Dimension>, events: seq<Event>, i: nat)
    requires i < |ds|
    ensures var replayed := OverridesAll(NotesAll(ds, NotesOf(events)), OverridesOf(events));
      |replayed| == |ds| && replayed[i] ==
        if LastOverride(OverridesOf(events), ds[i].kind).Some? then Overridden(ds[i], OverridesOf(events))
        else FoldNotes(ds[i], NotesOf(events))
  {
    NotesTrack(ds, NotesOf(events));
    OverridesTrack(NotesAll(ds, NotesOf(events)), OverridesOf(events), i);
    FoldKeepsKind(ds[i], NotesOf(events));
    LastOverrideIsOn(OverridesOf(events), ds[i].kind);
  }

  // ---------------------------------------------------------------------------------------------
  // When replay agrees with live.
  // ---------------------------------------------------------------------------------------------

  /** The notes on a dimension after its last override, taken together, leave the overridden
      dimension as it was. There being none is the plain case. */
  ghost predicate TrailingNotesCancel(events: seq<Event>, k: FiveC) {
    var last := LastOverride(OverridesOf(events), k);
    last.Some? ==>
      var d := Dimension(k, last.value.newScore, last.value.newScore < 30.0, true);
      FoldNotes(d, TrailingNotes(events, k)) == d
  }

  ghost predicate NoTrailingNotes(events: seq<Event>, k: FiveC) {
    LastOverride(OverridesOf(events), k).Some? ==> TrailingNotes(events, k) == []
  }

  lemma {:induction false} NoEventsNoRows(events: seq<Event>)
    ensures events == [] <==> NotesOf(events) == [] && OverridesOf(events) == []
  {
    if events != [] {
      NoEventsNoRows(events[..|events| - 1]);
    }
  }

  /** Main result: replaying all notes and then all overrides gives the dimension scores, overall
      score, band and critical list of the live path exactly when, in every dimension, the notes
      after its last override cancel out. */
  lemma {:induction false} ReplayAgreesExactlyWhen(base: CreditScore, events: seq<Event>)
    requires Consistent(base) && ValidEvents(events)
    ensures (Replay(base, NotesOf(events), OverridesOf(events))
             == Live(base, events).(recommendation := base.recommendation))
       <==> forall k :: TrailingNotesCancel(events, k)
  {
    var ds := base.dimensions;
    var replayed := OverridesAll(NotesAll(ds, NotesOf(events)), OverridesOf(events));
    var live := Live(base, events).dimensions;
    LiveTracks(base, events);
    NoEventsNoRows(events);
    forall i: nat | i < 5
      ensures |replayed| == 5 && (replayed[i] == live[i] <==> TrailingNotesCancel(events, KINDS[i]))
    {
      ReplayIs(ds, events, i);
      TrackIs(ds[i], events);
      LastOverrideIsOn(OverridesOf(events), KINDS[i]);
      if LastOverride(OverridesOf(events), KINDS[i]).None? {
        UnoverriddenKeepsAllNotes(ds[i], events);
      }
    }
    if events != [] {
      ReviewStaysConsistent(base, events);
      assert Live(base, events) == Recompute(live);
      assert Replay(base, NotesOf(events), OverridesOf(events))
        == Recompute(replayed).(recommendation := base.recommendation);
    }
    if forall k :: TrailingNotesCancel(events, k) {
      assert events != [] ==> replayed == live;
    } else {
      var k :| !TrailingNotesCancel(events, k);
      assert KINDS[Index(k)] == k;
      assert replayed[Index(k)] != live[Index(k)];
    }
  }

  /** The guard a caller can read off the event list: no note follows its dimension's last override. */
  lemma {:induction false} ReplayAgreesWithoutTrailingNotes(base: CreditScore, events: seq<Event>)
    requires Consistent(base) && ValidEvents(events)
    requires forall k :: NoTrailingNotes(events, k)
    ensures Replay(base, NotesOf(events), OverridesOf(events))
      == Live(base, events).(recommendation := base.recommendation)
  {
    forall k
      ensures TrailingNotesCancel(events, k)
    {
      assert NoTrailingNotes(events, k);
    }
    ReplayAgreesExactlyWhen(base, events);
  }

  /** In general a replayed overridden dimension equals its last override. */
  lemma {:induction false} ReplayedOverrideWins(base: CreditScore, events: seq<Event>, k: FiveC)
    requires Consistent(base) && LastOverride(OverridesOf(events), k).Some?
    ensures var d := Replay(base, NotesOf(events), OverridesOf(events)).dimensions;
      |d| == 5 && var d := d[Index(k)];
      d.kind == k && d.overridden && d.score == LastOverride(OverridesOf(events), k).value.newScore
  {
    ReplayIs(base.dimensions, events, Index(k));
    assert base.dimensions[Index(k)].kind == KINDS[Index(k)] == k;
    LastOverrideIsOn(OverridesOf(events), k);
    assert OverridesOf(events) != [];
  }

  /** A single trailing note cancels only in the corners: a neutral one on a two-decimal score, or
      one that pushes against the bound the score already sits at. */
  lemma {:induction false} SingleTrailingNoteCancels(score: real, n: Note)
    requires 0.0 <= score <= 100.0 && n.impact == EvaluateNote(n.sentiment, n.severity)
    ensures NoteScore(score, Impact(n)) == score <==>
      match n.sentiment
      case Neutral => TwoDecimals(score)
      case Positive => score == 100.0
      case Adverse => score == 0.0
  {
    NoteImpactRange(n.sentiment, n.severity);
    var x := Clamp(score + Impact(n));
    Round2Spec(x);
    Round2Range(100.0, 100, 100);
    Round2Range(0.0, 0, 0);
  }

  lemma {:induction false} TwoEvents(d: Dimension, o: Override, e: Event)
    requires e.NoteEvent?
    ensures OverridesOf([OverrideEvent(o), e]) == [o]
    ensures LastOverride([o], o.dimension) == Some(o)
    ensures Track(d, [OverrideEvent(o), e]) == NotedDimension(OverriddenDimension(d, o), Submit(e))
  {
    var first := [OverrideEvent(o)];
    assert [OverrideEvent(o), e][..1] == first && first[..0] == [];
    assert OverridesOf(first) == [o] && Track(d, first) == OverriddenDimension(d, o);
  }

  /** An override followed by a note on the same dimension: the live score takes the note in, the
      replayed one does not. */
  lemma {:induction false} NoteAfterOverride(base: CreditScore, o: Override, sentiment: Sentiment, severity: Severity)
    requires Consistent(base)
    ensures var events := [OverrideEvent(o), NoteEvent(Some(o.dimension), sentiment, severity)];
      var live := Live(base, events).dimensions;
      var replayed := Replay(base, NotesOf(events), OverridesOf(events)).dimensions;
      && |live| == |replayed| == 5
      && live[Index(o.dimension)].score == NoteScore(o.newScore, Impact(Submit(events[1])))
      && replayed[Index(o.dimension)].score == o.newScore
  {
    var e := NoteEvent(Some(o.dimension), sentiment, severity);
    var i := Index(o.dimension);
    assert base.dimensions[i].kind == KINDS[i] == o.dimension;
    TwoEvents(base.dimensions[i], o, e);
    LiveTracks(base, [OverrideEvent(o), e]);
    ReplayedOverrideWins(base, [OverrideEvent(o), e], o.dimension);
  }

  lemma {:induction false} HighAdverseNoteOnFifty()
    ensures EvaluateNote(Adverse, High) == -11.25 && NoteScore(50.0, -11.25) == 38.75
  {
    assert TwoDecimals(-11.25) && TwoDecimals(38.75);
    Round2Spec(-11.25);
    Round2Spec(38.75);
  }

  /** So restarts are not always transparent: Capital overridden to 50 and then noted High and
      adverse reads 38.75 live, and 50 again after a restart. */
  lemma {:induction false} ReplayCanUndoANote(base: CreditScore)
    requires Consistent(base)
    ensures var events := [OverrideEvent(Override(Capital, 50.0)), NoteEvent(Some(Capital), Adverse, High)];
      var live := Live(base, events).dimensions;
      var replayed := Replay(base, NotesOf(events), OverridesOf(events)).dimensions;
      |live| == |replayed| == 5 && live[2].score == 38.75 && replayed[2].score == 50.0
  {
    NoteAfterOverride(base, Override(Capital, 50.0), Adverse, High);
    HighAdverseNoteOnFifty();
  }
}
