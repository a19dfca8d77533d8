/** api/deps.py, the Redis fixed-window limiter for one client key, as a protocol: any number of
    workers whose INCR, EXPIRE and final TTL read are separate steps on a shared store, in any
    order, with crashes in between. Redis drops a key once its expiry time is reached. */
module RedisLimit {
  import opened Base

  /** The stored counter; no expiry until some EXPIRE has reached it. */
  datatype Key = Absent | Present(count: nat, expiry: Option<real>)

  /** Where a worker is in hit: about to EXPIRE after its INCR returned 1, about to answer, done. */
  datatype Worker = Idle | MustExpire | Answering(count: nat) | Crashed

  /** An INCR: when, in which lifetime of the key, and the count it returned. A crash afterwards
      does not undo it. */
  datatype Increment = Increment(at: real, generation: nat, count: nat)

  datatype State = State(
    now: real,
    key: Key,
    workers: map<nat, Worker>,
    starts: seq<real>, // when each generation of the key was created
    history: seq<Increment>)

  datatype Step =
    | Tick(delta: real)
    | Incr(w: nat)
    | Expire(w: nat)
    | Answer(w: nat)
    | Crash(w: nat)

  function WorkerOf(workers: map<nat, Worker>, w: nat): Worker { if w in workers then workers[w] else Idle }

  /** The key as Redis sees it now. */
  function Live(key: Key, now: real): Key {
    if key.Present? && key.expiry.Some? && now >= key.expiry.value then Absent else key
  }

  const INITIAL := State(0.0, Absent, map[], [], [])

  /** One step; a step that is not enabled changes nothing, so every step list is a run. */
  function Apply(s: State, step: Step, window: real): State {
    match step
    case Tick(delta) => if delta < 0.0 then s else s.(now := s.now + delta)
    case Incr(w) =>
      if !WorkerOf(s.workers, w).Idle? then s
      else
        var live := Live(s.key, s.now);
        var created := live.Absent?;
        var count := if created then 1 else live.count + 1;
        var starts := if created then s.starts + [s.now] else s.starts;
        s.(key := Present(count, if created then None else live.expiry),
           starts := starts,
           history := s.history + [Increment(s.now, |starts|, count)],
           workers := s.workers[w := if count == 1 then MustExpire else Answering(count)])
    case Expire(w) =>
      if !WorkerOf(s.workers, w).MustExpire? then s
      else
        var live := Live(s.key, s.now);
        s.(key := if live.Present? then live.(expiry := Some(s.now + window)) else live,
           workers := s.workers[w := Answering(1)])
    case Answer(w) => if WorkerOf(s.workers, w).Answering? then s.(workers := s.workers[w := Idle]) else s
    case Crash(w) => s.(workers := s.workers[w := Crashed])
  }

  /** The answer hit gives once the count is known: TTL is read only to deny. */
  datatype HitResult = Allowed | Denied(retryAfter: int)

  function AnswerFor(count: nat, limit: nat, ttl: int, window: int): HitResult {
    if count > limit then Denied(if ttl > 0 then ttl else window) else Allowed
  }

  function RunFrom(s: State, steps: seq<Step>, window: real): State {
    if steps == [] then s else Apply(RunFrom(s, steps[..|steps| - 1], window), steps[|steps| - 1], window)
  }

  /** hit as one worker runs it, uninterrupted, on the shared counter. */
  class RedisRateLimitBackend {
    var key: Key

    method Incr(now: real) returns (count: nat)
      modifies this
      ensures key == Present(count, if Live(old(key), now).Present? then old(key).expiry else None)
      ensures count == if Live(old(key), now).Present? then old(key).count + 1 else 1
    {
      key := Live(key, now);
      if key.Absent? {
        key := Present(0, None);
      }
      key := key.(count := key.count + 1);
      count := key.count;
    }

    method Hit(limit: nat, window: nat, now: real, ttl: int) returns (result: HitResult)
      requires window > 0
      modifies this
      ensures var s := RunFrom(State(now, old(key), map[], [], []), [Step.Incr(0), Expire(0), Answer(0)],
        window as real);
        key == s.key && |s.history| == 1 && result == AnswerFor(s.history[0].count, limit, ttl, window)
    {
      ghost var start := State(now, key, map[], [], []);
      ghost var steps := [Step.Incr(0), Expire(0), Answer(0)];
      assert steps[..2] == [Step.Incr(0), Expire(0)] && steps[..2][..1] == [Step.Incr(0)] && steps[..2][..1][..0] == [];
      var count := Incr(now);
      ghost var counted := Apply(start, Step.Incr(0), window as real);
      assert RunFrom(start, [Step.Incr(0)], window as real) == counted;
      if count == 1 {
        key := key.(expiry := Some(now + window as real));
      }
      ghost var expired := Apply(counted, Expire(0), window as real);
      assert RunFrom(start, steps[..2], window as real) == expired;
      assert RunFrom(start, steps, window as real) == Apply(expired, Answer(0), window as real);
      if count > limit {
        return Denied(if ttl > 0 then ttl else window);
      }
      return Allowed;
    }
  }

  function Run(steps: seq<Step>, window: real): State {
    RunFrom(INITIAL, steps, window)
  }

  // ---------------------------------------------------------------------------------------------
  // The invariant of every interleaving.
  // ---------------------------------------------------------------------------------------------

  ghost predicate StartsSpaced(starts: seq<real>, window: real) {
    forall i, j :: 0 <= i < j < |starts| ==> starts[j] >= starts[i] + window
  }

  function CountOf(history: seq<Increment>, generation: nat): nat {
    if history == [] then 0
    else
      CountOf(history[..|history| - 1], generation) +
      if history[|history| - 1].generation == generation then 1 else 0
  }

  /** INCR numbers the increments of each generation 1, 2, 3 and so on. */
  ghost predicate Ranked(history: seq<Increment>) {
    forall i :: 0 <= i < |history| ==> history[i].count == CountOf(history[..i], history[i].generation) + 1
  }

  /** History is in generation order, and each generation's increments lie between its start and
      the next. */
  ghost predicate HistoryFits(history: seq<Increment>, starts: seq<real>, now: real) {
    && (forall i :: 0 <= i < |history| ==>
          && 1 <= history[i].generation <= |starts|
          && starts[history[i].generation - 1] <= history[i].at <= now
          && (history[i].generation < |starts| ==> history[i].at <= starts[history[i].generation]))
    && forall i, j :: 0 <= i < j < |history| ==> history[i].generation <= history[j].generation
  }

  /** The workers that have created the key and not yet given it an expiry. */
  ghost function Pending(workers: map<nat, Worker>): set<nat> {
    set w | w in workers && workers[w].MustExpire?
  }

  /** At most one worker has yet to set the expiry, and only while the current key has none. */
  ghost predicate ExpiryFits(s: State, window: real) {
    && |Pending(s.workers)| <= 1
    && (Pending(s.workers) != {} ==> s.key.Present? && s.key.expiry.None?)
    && (s.key.Present? ==> s.starts != [])
    && (s.key.Present? && s.key.expiry.Some? ==> s.key.expiry.value >= s.starts[|s.starts| - 1] + window)
    && (s.key.Absent? ==> s.starts == [])
    && (s.key.Present? ==> s.key.count == CountOf(s.history, |s.starts|) >= 1)
  }

  ghost predicate TimesFit(starts: seq<real>, history: seq<Increment>, now: real, window: real) {
    && StartsSpaced(starts, window)
    && (forall i :: 0 <= i < |starts| ==> starts[i] <= now)
    && HistoryFits(history, starts, now)
  }

  /** The increment numbered 1 is the one that creates its generation. */
  ghost predicate FirstsCreate(history: seq<Increment>, starts: seq<real>) {
    forall i :: 0 <= i < |history| && history[i].count == 1 ==>
      1 <= history[i].generation <= |starts| && history[i].at == starts[history[i].generation - 1]
  }

  ghost predicate Inv(s: State, window: real) {
    && TimesFit(s.starts, s.history, s.now, window)
    && Ranked(s.history)
    && FirstsCreate(s.history, s.starts)
    && ExpiryFits(s, window)
  }

  lemma {:induction false} NoneYet(history: seq<Increment>, generation: nat)
    requires forall i :: 0 <= i < |history| ==> history[i].generation < generation
    ensures CountOf(history, generation) == 0
  {
    if history != [] {
      NoneYet(history[..|history| - 1], generation);
    }
  }

  lemma WorkerUpdated(workers: map<nat, Worker>, w: nat, x: Worker)
    ensures Pending(workers[w := x]) == Pending(workers) - {w} + if x.MustExpire? then {w} else {}
    ensures WorkerOf(workers, w).MustExpire? <==> w in Pending(workers)
  {
  }

  lemma {:induction false} OnlyOne(ws: set<nat>, w: nat)
    requires |ws| <= 1
    ensures w in ws ==> ws == {w}
  {
    if w in ws {
      assert |ws - {w}| == 0;
    }
  }

  lemma {:induction false} RankedGrows(history: seq<Increment>, h: Increment)
    requires Ranked(history) && h.count == CountOf(history, h.generation) + 1
    ensures Ranked(history + [h])
    ensures forall g :: CountOf(history + [h], g) == CountOf(history, g) + if h.generation == g then 1 else 0
  {
    var more := history + [h];
    assert more[..|history|] == history;
    forall i | 0 <= i < |more|
      ensures more[i].count == CountOf(more[..i], more[i].generation) + 1
    {
      assert more[..i] == history[..i];
    }
  }

  lemma {:induction false} NewGeneration(starts: seq<real>, history: seq<Increment>, now: real, window: real)
    requires TimesFit(starts, history, now, window) && window > 0.0
    requires starts != [] ==> now >= starts[|starts| - 1] + window
    ensures TimesFit(starts + [now], history, now, window)
    ensures CountOf(history, |starts| + 1) == 0
  {
    NoneYet(history, |starts| + 1);
  }

  lemma NewIncrement(starts: seq<real>, history: seq<Increment>, now: real, window: real, count: nat)
    requires TimesFit(starts, history, now, window) && starts != []
    ensures TimesFit(starts, history + [Increment(now, |starts|, count)], now, window)
  {
  }

  lemma {:induction false} IncrKeepsRecord(s: State, w: nat, window: real)
    requires Inv(s, window) && window > 0.0 && WorkerOf(s.workers, w).Idle?
    ensures var s' := Apply(s, Incr(w), window);
      TimesFit(s'.starts, s'.history, s'.now, window) && Ranked(s'.history) && FirstsCreate(s'.history, s'.starts)
  {
    var s' := Apply(s, Incr(w), window);
    var h := Increment(s.now, |s'.starts|, s'.key.count);
    if Live(s.key, s.now).Absent? {
      NewGeneration(s.starts, s.history, s.now, window);
    }
    NewIncrement(s'.starts, s.history, s.now, window, h.count);
    RankedGrows(s.history, h);
    FirstsGrow(s.history, s.starts, s'.starts, h);
  }

  lemma FirstsGrow(history: seq<Increment>, starts: seq<real>, starts': seq<real>, h: Increment)
    requires FirstsCreate(history, starts) && starts <= starts'
    requires h.count == 1 ==> h.generation == |starts'| && starts' != [] && h.at == starts'[|starts'| - 1]
    ensures FirstsCreate(history + [h], starts')
  {
  }

  lemma {:induction false} IncrKeepsExpiry(s: State, w: nat, window: real)
    requires ExpiryFits(s, window) && WorkerOf(s.workers, w).Idle?
    requires CountOf(s.history, |s.starts| + 1) == 0
    ensures ExpiryFits(Apply(s, Incr(w), window), window)
  {
    var s' := Apply(s, Incr(w), window);
    assert s'.history[..|s.history|] == s.history;
    WorkerUpdated(s.workers, w, s'.workers[w]);
    if Live(s.key, s.now).Absent? {
      assert Pending(s'.workers) == {w};
    } else {
      OnlyOne(Pending(s.workers), w);
    }
  }

  lemma {:induction false} IncrKeepsInv(s: State, w: nat, window: real)
    requires Inv(s, window) && window > 0.0 && WorkerOf(s.workers, w).Idle?
    ensures Inv(Apply(s, Incr(w), window), window)
  {
    NoneYet(s.history, |s.starts| + 1);
    IncrKeepsRecord(s, w, window);
    IncrKeepsExpiry(s, w, window);
  }

  lemma {:induction false} OtherStepKeepsExpiry(s: State, step: Step, window: real)
    requires ExpiryFits(s, window) && !step.Incr? && (s.starts != [] ==> s.starts[|s.starts| - 1] <= s.now)
    ensures ExpiryFits(Apply(s, step, window), window)
  {
    if !step.Tick? {
      OnlyOne(Pending(s.workers), step.w);
      WorkerUpdated(s.workers, step.w, WorkerOf(Apply(s, step, window).workers, step.w));
    }
  }

  lemma {:induction false} StepKeepsInv(s: State, step: Step, window: real)
    requires Inv(s, window) && window > 0.0
    ensures Inv(Apply(s, step, window), window)
  {
    if step.Incr? {
      if WorkerOf(s.workers, step.w).Idle? {
        IncrKeepsInv(s, step.w, window);
      }
    } else {
      OtherStepKeepsExpiry(s, step, window);
      TimePasses(s.starts, s.history, s.now, Apply(s, step, window).now, window);
    }
  }

  lemma TimePasses(starts: seq<real>, history: seq<Increment>, now: real, later: real, window: real)
    requires TimesFit(starts, history, now, window) && now <= later
    ensures TimesFit(starts, history, later, window)
  {
  }

  lemma {:induction false} RunKeepsInv(steps: seq<Step>, window: real)
    requires window > 0.0
    ensures Inv(Run(steps, window), window)
  {
    if steps != [] {
      RunKeepsInv(steps[..|steps| - 1], window);
      StepKeepsInv(Run(steps[..|steps| - 1], window), steps[|steps| - 1], window);
    }
  }

  // ---------------------------------------------------------------------------------------------
  // Bounds over runs.
  // ---------------------------------------------------------------------------------------------

  /** The increments answered (or, after a crash, due to be answered) with "allowed" in a
      half-open interval of one window length. */
  function AllowedIn(history: seq<Increment>, from: real, window: real, limit: nat): seq<Increment> {
    if history == [] then []
    else
      var h := history[|history| - 1];
      AllowedIn(history[..|history| - 1], from, window, limit) +
      if Within(h, from, window) && h.count <= limit then [h] else []
  }

  function AllowedOf(history: seq<Increment>, generation: nat, limit: nat): seq<Increment> {
    if history == [] then []
    else
      var h := history[|history| - 1];
      AllowedOf(history[..|history| - 1], generation, limit) +
      if h.generation == generation && h.count <= limit then [h] else []
  }

  lemma {:induction false} AllowedOfSpec(history: seq<Increment>, generation: nat, limit: nat)
    requires Ranked(history)
    ensures |AllowedOf(history, generation, limit)| == Least(CountOf(history, generation), limit)
  {
    if history != [] {
      var n := |history| - 1;
      forall i | 0 <= i < n
        ensures history[..n][i].count == CountOf(history[..n][..i], history[..n][i].generation) + 1
      {
        assert history[..n][..i] == history[..i];
      }
      AllowedOfSpec(history[..n], generation, limit);
    }
  }

  function Least(a: nat, b: nat): nat { if a <= b then a else b }

  /** Each lifetime of the key allows its first limit hits and no other. */
  lemma {:induction false} GenerationAllowsFirstLimit(steps: seq<Step>, window: real, generation: nat,
      limit: nat, ttl: int, seconds: int)
    requires window > 0.0
    ensures var history := Run(steps, window).history;
      && |AllowedOf(history, generation, limit)| == Least(CountOf(history, generation), limit)
      && forall i :: 0 <= i < |history| ==>
           (AnswerFor(history[i].count, limit, ttl, seconds).Allowed? <==>
              CountOf(history[..i], history[i].generation) < limit)
  {
    RunKeepsInv(steps, window);
    AllowedOfSpec(Run(steps, window).history, generation, limit);
  }

  /** Consecutive lifetimes start at least a window apart. */
  lemma {:induction false} GenerationsAreSpaced(steps: seq<Step>, window: real)
    requires window > 0.0
    ensures StartsSpaced(Run(steps, window).starts, window)
  {
    RunKeepsInv(steps, window);
  }

  /** What HistoryFits and FirstsCreate say of one increment. */
  ghost predicate Placed(h: Increment, starts: seq<real>) {
    && 1 <= h.generation <= |starts| && h.count >= 1
    && starts[h.generation - 1] <= h.at
    && (h.generation < |starts| ==> h.at <= starts[h.generation])
    && (h.count == 1 ==> h.at == starts[h.generation - 1])
  }

  lemma TwoGenerationsLater(a: Increment, b: Increment, starts: seq<real>, window: real)
    requires StartsSpaced(starts, window) && Placed(a, starts) && Placed(b, starts)
    ensures b.generation >= a.generation + 2 ==> b.at >= a.at + window
  {
  }

  /** Less than a window from a creation lie only that generation and, uncreated, the one before. */
  lemma {:induction false} AroundCreation(a: Increment, b: Increment, starts: seq<real>, from: real, window: real)
    requires StartsSpaced(starts, window) && Placed(a, starts) && Placed(b, starts) && a.count == 1
    requires Within(a, from, window) && Within(b, from, window)
    ensures b.generation == a.generation || (b.generation == a.generation - 1 && b.count >= 2)
  {
  }

  predicate Within(h: Increment, from: real, window: real) { from <= h.at < from + window }

  /** The increments of an interval belong to one generation, its creation aside, and the next. */
  ghost predicate InTwoGenerations(history: seq<Increment>, from: real, window: real, g: nat) {
    forall i :: 0 <= i < |history| && Within(history[i], from, window) ==>
      || (history[i].generation == g && history[i].count >= 2)
      || history[i].generation == g + 1
  }

  lemma {:induction false} AllPlaced(history: seq<Increment>, starts: seq<real>, now: real)
    requires HistoryFits(history, starts, now) && Ranked(history) && FirstsCreate(history, starts)
    ensures forall i :: 0 <= i < |history| ==> Placed(history[i], starts)
  {
    forall i | 0 <= i < |history|
      ensures Placed(history[i], starts)
    {
      assert history[i].count == CountOf(history[..i], history[i].generation) + 1;
    }
  }

  /** An interval of one window meets at most two consecutive generations, and of the earlier one
      not its creation. */
  lemma {:induction false} IntervalMeetsTwoGenerations(history: seq<Increment>, starts: seq<real>, from: real,
      window: real)
    returns (g: nat)
    requires StartsSpaced(starts, window) && forall i :: 0 <= i < |history| ==> Placed(history[i], starts)
    requires forall i, j :: 0 <= i < j < |history| ==> history[i].generation <= history[j].generation
    ensures InTwoGenerations(history, from, window, g)
  {
    if i :| 0 <= i < |history| && Within(history[i], from, window) && history[i].count == 1 {
      g := history[i].generation - 1;
      forall j | 0 <= j < |history| && Within(history[j], from, window)
        ensures (history[j].generation == g && history[j].count >= 2) || history[j].generation == g + 1
      {
        AroundCreation(history[i], history[j], starts, from, window);
      }
    } else if i :| 0 <= i < |history| && Within(history[i], from, window)
                     && forall j :: 0 <= j < i ==> !Within(history[j], from, window) {
      g := history[i].generation;
      forall j | 0 <= j < |history| && Within(history[j], from, window)
        ensures (history[j].generation == g && history[j].count >= 2) || history[j].generation == g + 1
      {
        TwoGenerationsLater(history[i], history[j], starts, window);
      }
    } else {
      NoneWithoutFirst(history, from, window, |history|);
      g := 0;
    }
  }

  lemma {:induction false} NoneWithoutFirst(history: seq<Increment>, from: real, window: real, n: nat)
    requires n <= |history|
    requires forall i :: 0 <= i < |history| && Within(history[i], from, window) ==>
               exists j :: 0 <= j < i && Within(history[j], from, window)
    ensures forall i :: 0 <= i < n ==> !Within(history[i], from, window)
  {
    if n > 0 {
      NoneWithoutFirst(history, from, window, n - 1);
    }
  }

  /** The allowed increments of a generation other than its creation. */
  function LateOf(history: seq<Increment>, generation: nat, limit: nat): nat {
    if history == [] then 0
    else
      var h := history[|history| - 1];
      LateOf(history[..|history| - 1], generation, limit) +
      if h.generation == generation && 2 <= h.count <= limit then 1 else 0
  }

  lemma {:induction false} LateOfSpec(history: seq<Increment>, generation: nat, limit: nat)
    requires Ranked(history) && limit >= 1
    ensures LateOf(history, generation, limit) ==
              if CountOf(history, generation) == 0 then 0 else Least(CountOf(history, generation), limit) - 1
  {
    if history != [] {
      RankedPrefix(history);
      LateOfSpec(history[..|history| - 1], generation, limit);
    }
  }

  lemma {:induction false} RankedPrefix(history: seq<Increment>)
    requires Ranked(history) && history != []
    ensures Ranked(history[..|history| - 1])
  {
    var init := history[..|history| - 1];
    forall i | 0 <= i < |init|
      ensures init[i].count == CountOf(init[..i], init[i].generation) + 1
    {
      assert init[..i] == history[..i];
    }
  }

  lemma {:induction false} CountByGeneration(history: seq<Increment>, from: real, window: real, limit: nat, g: nat)
    requires InTwoGenerations(history, from, window, g)
    ensures |AllowedIn(history, from, window, limit)| <= LateOf(history, g, limit) + |AllowedOf(history, g + 1, limit)|
  {
    if history != [] {
      CountByGeneration(history[..|history| - 1], from, window, limit, g);
    }
  }

  lemma {:induction false} TwoGenerationsBound(history: seq<Increment>, from: real, window: real, limit: nat, g: nat)
    requires InTwoGenerations(history, from, window, g) && Ranked(history) && limit >= 1
    ensures |AllowedIn(history, from, window, limit)| <= 2 * limit - 1
  {
    CountByGeneration(history, from, window, limit, g);
    LateOfSpec(history, g, limit);
    AllowedOfSpec(history, g + 1, limit);
  }

  /** Main result: for any workers, interleaving and crashes, every half-open interval of one window
      length holds fewer than twice limit allowed hits. */
  lemma {:induction false} AnyWindowAllowsLessThanTwiceLimit(steps: seq<Step>, window: real, from: real, limit: nat)
    requires window > 0.0 && limit >= 1
    ensures |AllowedIn(Run(steps, window).history, from, window, limit)| <= 2 * limit - 1
  {
    RunKeepsInv(steps, window);
    var s := Run(steps, window);
    AllPlaced(s.history, s.starts, s.now);
    var g := IntervalMeetsTwoGenerations(s.history, s.starts, from, window);
    TwoGenerationsBound(s.history, from, window, limit, g);
  }

  // ---------------------------------------------------------------------------------------------
  // That bound is attained.
  // ---------------------------------------------------------------------------------------------

  function Incrs(first: nat, n: nat): seq<Step> {
    if n == 0 then [] else Incrs(first, n - 1) + [Step.Incr(first + n - 1)]
  }

  lemma {:induction false} RunFromConcat(s: State, a: seq<Step>, b: seq<Step>, window: real)
    ensures RunFrom(s, a + b, window) == RunFrom(RunFrom(s, a, window), b, window)
    decreases |b|
  {
    if b == [] {
      assert a + b == a;
    } else {
      RunFromConcat(s, a, b[..|b| - 1], window);
      assert (a + b)[..|a + b| - 1] == a + b[..|b| - 1];
    }
  }

  /** Every worker from first on is still idle. */
  ghost predicate IdleFrom(s: State, first: nat) { forall w :: w in s.workers ==> w < first }

  lemma AllowedSnoc(history: seq<Increment>, h: Increment, from: real, window: real, limit: nat)
    ensures |AllowedIn(history + [h], from, window, limit)|
         == |AllowedIn(history, from, window, limit)| + if Within(h, from, window) && h.count <= limit then 1 else 0
  {
    assert (history + [h])[..|history|] == history;
  }

  /** From s to s', n more hits were allowed, on the same key at the same time, by workers before
      next. */
  ghost predicate AllowedMore(s: State, s': State, n: nat, next: nat, from: real, window: real, limit: nat) {
    && s'.now == s.now && IdleFrom(s', next)
    && s.key.Present? && s'.key == s.key.(count := s.key.count + n)
    && |AllowedIn(s'.history, from, window, limit)| == |AllowedIn(s.history, from, window, limit)| + n
  }

  /** A fresh worker hits a live key inside the interval and under the limit. */
  lemma {:induction false} HitUnderTheLimit(s: State, w: nat, window: real, from: real, limit: nat)
    requires Live(s.key, s.now).Present? && 1 <= s.key.count < limit
    requires IdleFrom(s, w) && from <= s.now < from + window
    ensures AllowedMore(s, Apply(s, Incr(w), window), 1, w + 1, from, window, limit)
  {
    assert WorkerOf(s.workers, w).Idle?;
    AllowedSnoc(s.history, Increment(s.now, |s.starts|, s.key.count + 1), from, window, limit);
  }

  /** n fresh workers do so one after the other: all are allowed. */
  lemma {:induction false} HitsUnderTheLimit(s: State, first: nat, n: nat, window: real, from: real, limit: nat)
    requires Live(s.key, s.now).Present? && s.key.count >= 1 && s.key.count + n <= limit
    requires IdleFrom(s, first) && from <= s.now < from + window
    ensures AllowedMore(s, RunFrom(s, Incrs(first, n), window), n, first + n, from, window, limit)
  {
    if n == 0 {
      NoMore(s, first, from, window, limit);
    } else {
      HitsUnderTheLimit(s, first, n - 1, window, from, limit);
      RunFromSnoc(s, Incrs(first, n - 1), Step.Incr(first + n - 1), window);
      OneMore(s, RunFrom(s, Incrs(first, n - 1), window), first + n - 1, n - 1, window, from, limit);
    }
  }

  lemma {:induction false} NoMore(s: State, first: nat, from: real, window: real, limit: nat)
    requires s.key.Present? && IdleFrom(s, first)
    ensures AllowedMore(s, s, 0, first, from, window, limit)
  {
  }

  lemma {:induction false} OneMore(s: State, m: State, w: nat, n: nat, window: real, from: real, limit: nat)
    requires Live(s.key, s.now).Present? && s.key.count >= 1 && s.key.count + n < limit
    requires from <= s.now < from + window && AllowedMore(s, m, n, w, from, window, limit)
    ensures AllowedMore(s, Apply(m, Incr(w), window), n + 1, w + 1, from, window, limit)
  {
    HitUnderTheLimit(m, w, window, from, limit);
  }

  lemma RunFromSnoc(s: State, steps: seq<Step>, step: Step, window: real)
    ensures RunFrom(s, steps + [step], window) == Apply(RunFrom(s, steps, window), step, window)
  {
    assert (steps + [step])[..|steps|] == steps;
  }

  /** After the creation at 0, its EXPIRE, and half a window. */
  function OpeningState(window: real): State {
    State(window / 2.0, Present(1, Some(window)), map[0 := Answering(1)], [0.0], [Increment(0.0, 1, 1)])
  }

  lemma {:induction false} OpeningIs(window: real, limit: nat)
    requires window > 0.0
    ensures RunFrom(INITIAL, [Step.Incr(0), Expire(0), Tick(window / 2.0)], window) == OpeningState(window)
    ensures AllowedIn(OpeningState(window).history, window / 2.0, window, limit) == []
  {
    var counted := Apply(INITIAL, Step.Incr(0), window);
    var expired := Apply(counted, Expire(0), window);
    TwoSteps(INITIAL, Step.Incr(0), Expire(0), window);
    RunFromSnoc(INITIAL, [Step.Incr(0), Expire(0)], Tick(window / 2.0), window);
    assert [Step.Incr(0), Expire(0)] + [Tick(window / 2.0)] == [Step.Incr(0), Expire(0), Tick(window / 2.0)];
    assert counted.history == [Increment(0.0, 1, 1)];
    assert [Increment(0.0, 1, 1)][..0] == [];
  }

  lemma {:induction false} TwoSteps(s: State, a: Step, b: Step, window: real)
    ensures RunFrom(s, [a, b], window) == Apply(Apply(s, a, window), b, window)
  {
    RunFromSnoc(s, [], a, window);
    RunFromSnoc(s, [a], b, window);
    assert [] + [a] == [a] && [a] + [b] == [a, b];
  }

  /** The key ends with its window and a fresh worker creates it anew. */
  lemma {:induction false} Turnover(s: State, w: nat, window: real, limit: nat)
    requires window > 0.0 && limit >= 1 && s.now == window / 2.0 && IdleFrom(s, w)
    requires s.key.Present? && s.key.expiry == Some(window)
    ensures var s' := RunFrom(s, [Tick(window / 2.0), Step.Incr(w)], window);
      && s'.now == window && IdleFrom(s', w + 1) && s'.key == Present(1, None)
      && |AllowedIn(s'.history, window / 2.0, window, limit)| == |AllowedIn(s.history, window / 2.0, window, limit)| + 1
  {
    TwoSteps(s, Tick(window / 2.0), Step.Incr(w), window);
    assert WorkerOf(s.workers, w).Idle?;
    AllowedSnoc(s.history, Increment(window, |s.starts| + 1, 1), window / 2.0, window, limit);
  }

  function Opening(limit: nat, window: real): seq<Step>
    requires limit >= 1
  {
    [Step.Incr(0), Expire(0), Tick(window / 2.0)] + Incrs(1, limit - 1)
  }

  function Closing(limit: nat, window: real): seq<Step>
    requires limit >= 1
  {
    [Tick(window / 2.0), Step.Incr(limit)] + Incrs(limit + 1, limit - 1)
  }

  /** All but the creation of the first generation come in the interval. */
  lemma {:induction false} OpeningAllows(limit: nat, window: real)
    requires limit >= 1 && window > 0.0
    ensures var s := Run(Opening(limit, window), window);
      && s.now == window / 2.0 && IdleFrom(s, limit) && s.key.Present? && s.key.expiry == Some(window)
      && |AllowedIn(s.history, window / 2.0, window, limit)| == limit - 1
  {
    OpeningIs(window, limit);
    HitsUnderTheLimit(OpeningState(window), 1, limit - 1, window, window / 2.0, limit);
    RunFromConcat(INITIAL, [Step.Incr(0), Expire(0), Tick(window / 2.0)], Incrs(1, limit - 1), window);
  }

  /** And all of the second. */
  lemma {:induction false} ClosingAllows(s: State, limit: nat, window: real)
    requires limit >= 1 && window > 0.0 && s.now == window / 2.0 && IdleFrom(s, limit)
    requires s.key.Present? && s.key.expiry == Some(window)
    ensures |AllowedIn(RunFrom(s, Closing(limit, window), window).history, window / 2.0, window, limit)|
         == |AllowedIn(s.history, window / 2.0, window, limit)| + limit
  {
    var turnover := [Tick(window / 2.0), Step.Incr(limit)];
    Turnover(s, limit, window, limit);
    HitsUnderTheLimit(RunFrom(s, turnover, window), limit + 1, limit - 1, window, window / 2.0, limit);
    RunFromConcat(s, turnover, Incrs(limit + 1, limit - 1), window);
  }

  /** For every limit and window some run allows 2 * limit - 1 hits within one window length: one
      creation, half a window of quiet, the rest of the limit, the window's end, and the limit
      again. */
  lemma {:induction false} TheBoundIsAttained(limit: nat, window: real)
    requires limit >= 1 && window > 0.0
    ensures var run := Run(Opening(limit, window) + Closing(limit, window), window);
      |AllowedIn(run.history, window / 2.0, window, limit)| == 2 * limit - 1
  {
    OpeningAllows(limit, window);
    ClosingAllows(Run(Opening(limit, window), window), limit, window);
    RunFromConcat(INITIAL, Opening(limit, window), Closing(limit, window), window);
  }

  // ---------------------------------------------------------------------------------------------
  // The crash between INCR and EXPIRE.
  // ---------------------------------------------------------------------------------------------

  /** The key has no expiry and no worker is left to set one. */
  ghost predicate Orphaned(s: State) {
    s.key.Present? && s.key.expiry.None? && Pending(s.workers) == {}
  }

  /** An orphaned key outlives every continuation: the generation never changes, the count never
      drops, so once it has passed the limit every later hit is denied, whatever time passes. */
  lemma {:induction false} OrphanedKeyNeverExpires(s: State, steps: seq<Step>, window: real)
    requires Orphaned(s) && s.key.count >= 1
    ensures var s' := RunFrom(s, steps, window);
      && Orphaned(s') && s'.key.count >= s.key.count && s'.starts == s.starts
      && |s'.history| >= |s.history|
      && (forall i :: |s.history| <= i < |s'.history| ==> s'.history[i].count > s.key.count)
  {
    if steps != [] {
      var init, step := steps[..|steps| - 1], steps[|steps| - 1];
      OrphanedKeyNeverExpires(s, init, window);
      var m := RunFrom(s, init, window);
      var s' := Apply(m, step, window);
      if !step.Tick? && s'.workers != m.workers {
        WorkerUpdated(m.workers, step.w, s'.workers[step.w]);
      }
    }
  }

  /** The key of a reachable state is ever orphaned only by a crash of the worker that created it:
      at each step, a crash of the worker that must still expire it is the only way in. */
  lemma {:induction false} OrphanedOnlyByCrash(s: State, step: Step, window: real)
    requires Inv(s, window) && window > 0.0 && !Orphaned(s)
    ensures Orphaned(Apply(s, step, window)) <==>
              step.Crash? && WorkerOf(s.workers, step.w).MustExpire?
  {
    var s' := Apply(s, step, window);
    if !step.Tick? {
      OnlyOne(Pending(s.workers), step.w);
      WorkerUpdated(s.workers, step.w, WorkerOf(s'.workers, step.w));
    }
  }

  /** In this continuation some hit is allowed. */
  ghost predicate AllowsLater(s: State, steps: seq<Step>, window: real, limit: nat) {
    var s' := RunFrom(s, steps, window);
    exists i :: |s.history| <= i < |s'.history| && s'.history[i].count <= limit
  }

  lemma {:induction false} Above(ws: set<nat>) returns (w: nat)
    ensures forall v :: v in ws ==> v < w
  {
    if ws == {} {
      w := 0;
    } else {
      var v :| v in ws;
      var u := Above(ws - {v});
      w := if u <= v then v + 1 else u;
      assert forall x :: x in ws ==> x == v || x in ws - {v};
    }
  }

  /** A hit of a fresh worker is numbered after the live key's count, or 1 when there is none. */
  lemma {:induction false} HitCounts(s: State, steps: seq<Step>, w: nat, window: real, limit: nat)
    requires var m := RunFrom(s, steps, window);
      && m.history == s.history && w !in m.workers
      && var live := Live(m.key, m.now); live.Absent? || live.count < limit
    requires limit >= 1
    ensures AllowsLater(s, steps + [Step.Incr(w)], window, limit)
  {
    var m := RunFrom(s, steps, window);
    RunFromSnoc(s, steps, Step.Incr(w), window);
    assert WorkerOf(m.workers, w).Idle?;
    assert Apply(m, Step.Incr(w), window).history[|s.history|].count <= limit;
  }

  /** A key that some worker can still expire, or that has an expiry, is gone after a while. */
  lemma {:induction false} KeyRunsOut(s: State, window: real, w: nat) returns (steps: seq<Step>)
    requires Inv(s, window) && window > 0.0 && !Orphaned(s) && w !in s.workers
    ensures var m := RunFrom(s, steps, window);
      m.history == s.history && w !in m.workers && Live(m.key, m.now).Absent?
  {
    if s.key.Absent? {
      steps := [];
    } else if s.key.expiry.Some? {
      var wait := if s.now < s.key.expiry.value then s.key.expiry.value - s.now else 0.0;
      steps := [Tick(wait)];
      RunFromSnoc(s, [], Tick(wait), window);
      assert [] + [Tick(wait)] == [Tick(wait)];
    } else {
      var v :| v in Pending(s.workers);
      steps := [Expire(v), Tick(window)];
      TwoSteps(s, Expire(v), Tick(window), window);
    }
  }

  /** Main result: some continuation lets the client through again exactly when the key is not orphaned,
      or its count is still below the limit. */
  lemma {:induction false} AllowedAgainExactlyWhen(s: State, window: real, limit: nat)
    requires Inv(s, window) && window > 0.0 && limit >= 1
    ensures (exists steps :: AllowsLater(s, steps, window, limit)) <==> !Orphaned(s) || s.key.count < limit
  {
    var w := Above(s.workers.Keys);
    if !Orphaned(s) {
      var steps := KeyRunsOut(s, window, w);
      HitCounts(s, steps, w, window, limit);
    } else if s.key.count < limit {
      HitCounts(s, [], w, window, limit);
    } else {
      forall steps
        ensures !AllowsLater(s, steps, window, limit)
      {
        OrphanedKeyNeverExpires(s, steps, window);
      }
    }
  }

  /** Such a lockout is reachable: the worker that creates the key crashes, and others use up the limit. */
  lemma {:induction false} ACrashCanLockOut(window: real, limit: nat)
    requires window > 0.0 && limit >= 1
    ensures var s := Run([Step.Incr(0), Crash(0)] + Incrs(1, limit - 1), window);
      Orphaned(s) && s.key.count == limit && forall steps :: !AllowsLater(s, steps, window, limit)
  {
    var crash, hits := [Step.Incr(0), Crash(0)], Incrs(1, limit - 1);
    OrphanedByCrash(window);
    HitsUnderTheLimit(ORPHANED_STATE, 1, limit - 1, window, 0.0, limit);
    OrphanedKeyNeverExpires(ORPHANED_STATE, hits, window);
    RunFromConcat(INITIAL, crash, hits, window);
    LockedOut(crash + hits, window, limit);
  }

  const ORPHANED_STATE := State(0.0, Present(1, None), map[0 := Crashed], [0.0], [Increment(0.0, 1, 1)])

  lemma {:induction false} OrphanedByCrash(window: real)
    ensures Run([Step.Incr(0), Crash(0)], window) == ORPHANED_STATE && Orphaned(ORPHANED_STATE)
  {
    TwoSteps(INITIAL, Step.Incr(0), Crash(0), window);
    var counted := Apply(INITIAL, Step.Incr(0), window);
    assert counted.history == [Increment(0.0, 1, 1)] && counted.workers == map[0 := MustExpire];
  }

  lemma {:induction false} LockedOut(steps: seq<Step>, window: real, limit: nat)
    requires window > 0.0 && limit >= 1
    requires Orphaned(Run(steps, window)) && Run(steps, window).key.count == limit
    ensures forall more :: !AllowsLater(Run(steps, window), more, window, limit)
  {
    RunKeepsInv(steps, window);
    AllowedAgainExactlyWhen(Run(steps, window), window, limit);
  }

  /** A worker left alone finishes its hit and can serve the next: the count returned is one more than the
      live key's, and a key it created expires one window later. */
  lemma {:induction false} HitCompletes(s: State, w: nat, window: real)
    requires WorkerOf(s.workers, w).Idle?
    ensures var counted := Apply(s, Incr(w), window);
      var expired := Apply(counted, Expire(w), window);
      var done := Apply(expired, Answer(w), window);
      var live := Live(s.key, s.now);
      && WorkerOf(done.workers, w).Idle? && done.now == s.now && |done.history| == |s.history| + 1
      && done.history[|s.history|].count == (if live.Absent? then 1 else live.count + 1)
      && (live.Absent? && window > 0.0 ==> done.key == Present(1, Some(s.now + window)))
      && (live.Present? && live.count >= 1 ==> done.key == live.(count := live.count + 1))
  {
  }

  // ---------------------------------------------------------------------------------------------
  // Retry-After.
  // ---------------------------------------------------------------------------------------------

  /** What TTL may answer: -2 without a key, -1 without an expiry, else the remaining seconds as a whole
      number within one of the exact time. */
  ghost predicate TtlReads(key: Key, now: real, ttl: int) {
    match Live(key, now)
    case Absent => ttl == -2
    case Present(_, None) => ttl == -1
    case Present(_, Some(expiry)) => ttl >= 0 && -1.0 < ttl as real - (expiry - now) < 1.0
  }

  lemma {:induction false} ExpiryWithinWindow(steps: seq<Step>, window: real)
    requires window > 0.0
    ensures var s := Run(steps, window);
      s.key.Present? && s.key.expiry.Some? ==> s.key.expiry.value <= s.now + window
  {
    if steps != [] {
      ExpiryWithinWindow(steps[..|steps| - 1], window);
    }
  }

  /** Main result: every denial carries at least one second. With a TTL of at least one it is the time the
      key has left: one second more is enough for the key to go, one second less is not, and it is at most
      the window. Otherwise, as for an orphaned key, it is the window. */
  lemma {:induction false} RetryAfterIs(steps: seq<Step>, window: int, count: nat, limit: nat, ttl: int)
    requires window > 0 && count > limit
    requires TtlReads(Run(steps, window as real).key, Run(steps, window as real).now, ttl)
    ensures var s, answer := Run(steps, window as real), AnswerFor(count, limit, ttl, window);
      && answer.Denied? && answer.retryAfter >= 1
      && (ttl > 0 ==>
            && answer.retryAfter <= window
            && Live(s.key, s.now + answer.retryAfter as real + 1.0).Absent?
            && forall time: real :: s.now <= time <= s.now + answer.retryAfter as real - 1.0 ==>
                 Live(s.key, time).Present?)
      && (ttl <= 0 ==> answer.retryAfter == window)
  {
    ExpiryWithinWindow(steps, window as real);
  }
}
