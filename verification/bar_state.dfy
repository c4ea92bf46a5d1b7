/** The progress bar's state machine as values: the fields of a bar, and
    what drawBar, drawProgress, Clear, Tick and Write do to them. Both bar
    types (Progress.Bar and Console.Progress) are proved to follow these
    functions; the properties of the protocol are stated here once. */
module BarState {
  import opened Text
  import opened Render

  datatype Option<T> = None | Some(value: T)

  newtype byte = x: int | 0 <= x < 256

  /** time.Second, in the nanoseconds a time.Duration counts. */
  const Second: int := 1000000000

  /** The interval that turns throttling off. */
  const NoThrottle: int := -1

  /** The fields of a bar. `lastDraw` is None for Go's zero time.Time;
      `out` is what the bar has written to standard output, one entry per
      print call. */
  datatype State = State(
    size: int,
    template: string,
    width: int,
    interval: int,
    progress: int,
    lastDraw: Option<int>,
    maxLength: int,
    out: seq<string>)

  /** The result of a draw: the new state and whether printing failed. */
  datatype Drawn = Drawn(state: State, err: bool)

  /** The result of Tick: the new state, the returned count and whether an
      error was returned. */
  datatype Ticked = Ticked(state: State, value: int, err: bool)

  /** The configuration fields, which only the setters change. */
  predicate SameConfig(s: State, s': State) {
    s'.size == s.size && s'.template == s.template && s'.width == s.width && s'.interval == s.interval
  }

  /** What drawBar needs to run without a panic or a division by zero, with
      a template whose every '%' opens one of the verbs SetTemplate writes. */
  predicate CanDraw(s: State, progress: int, total: int) {
    0 < total && 0 <= progress <= total && 0 <= s.width && WellFormed(s.template)
  }

  /** What Tick(n) needs: a positive size set beforehand and a count that
      stays within it. */
  predicate CanTick(s: State, n: int) {
    0 < s.size && 0 <= s.progress + n <= s.size && 0 <= s.width && WellFormed(s.template)
  }

  /** The text drawBar prints: the line padded to the longest line so far,
      then a carriage return. */
  function Emitted(s: State, progress: int, total: int, cells: FillRule): (r: string)
    requires CanDraw(s, progress, total)
    ensures var line := Line(s.template, progress, total, s.width, cells);
      && |r| == (if |line| < s.maxLength then s.maxLength else |line|) + 1
      && r[..|line|] == line && r[|r| - 1] == '\r'
      && (|line| >= s.maxLength ==> r == line + "\r")
  {
    Pad(Line(s.template, progress, total, s.width, cells), s.maxLength) + "\r"
  }

  /** drawBar(progress, total). `maxLength` is updated before the print, so
      it changes even when the print fails; a failed print adds nothing to
      the output. */
  function DrawBar(s: State, progress: int, total: int, cells: FillRule, printFails: bool): (d: Drawn)
    requires CanDraw(s, progress, total)
    ensures d.err == printFails
    ensures SameConfig(s, d.state) && d.state.progress == s.progress && d.state.lastDraw == s.lastDraw
    ensures d.state.maxLength >= s.maxLength
    ensures d.state.maxLength >= |Line(s.template, progress, total, s.width, cells)|
    ensures d.state.out == if printFails then s.out else s.out + [Emitted(s, progress, total, cells)]
  {
    var line := Pad(Line(s.template, progress, total, s.width, cells), s.maxLength);
    Drawn(s.(maxLength := |line|, out := if printFails then s.out else s.out + [line + "\r"]), printFails)
  }

  /** The throttle gate of drawProgress: draw when nothing was drawn yet in
      this run, when throttling is off, or when `now` is not before the last
      draw plus the interval. */
  predicate RenderDue(lastDraw: Option<int>, interval: int, now: int)
    ensures lastDraw == None ==> RenderDue(lastDraw, interval, now)
    ensures interval == NoThrottle ==> RenderDue(lastDraw, interval, now)
    ensures lastDraw.Some? && interval != NoThrottle && now < lastDraw.value + interval
      ==> !RenderDue(lastDraw, interval, now)
    ensures lastDraw.Some? && now >= lastDraw.value + interval ==> RenderDue(lastDraw, interval, now)
  {
    match lastDraw
    case None => true
    case Some(last) => interval == NoThrottle || !(now < last + interval)
  }

  /** Once a draw is due it stays due as the clock moves on. */
  lemma RenderDueStaysDue(lastDraw: Option<int>, interval: int, now: int, later: int)
    requires now <= later && RenderDue(lastDraw, interval, now)
    ensures RenderDue(lastDraw, interval, later)
  {
  }

  /** drawProgress: a throttled drawBar of the current progress; only a
      successful draw records `now` as the last draw. */
  function DrawProgress(s: State, now: int, cells: FillRule, printFails: bool): (d: Drawn)
    requires CanDraw(s, s.progress, s.size)
    ensures SameConfig(s, d.state) && d.state.progress == s.progress
    ensures d.err <==> printFails && RenderDue(s.lastDraw, s.interval, now)
    ensures !RenderDue(s.lastDraw, s.interval, now) ==> d.state == s
  {
    if !RenderDue(s.lastDraw, s.interval, now) then Drawn(s, false)
    else
      var d := DrawBar(s, s.progress, s.size, cells, printFails);
      if d.err then d else Drawn(d.state.(lastDraw := Some(now)), false)
  }

  /** Clear(newline): progress back to zero, and a newline printed when
      asked (its print error is ignored). */
  function Clear(s: State, newline: bool): (r: State)
    ensures SameConfig(s, r) && r.progress == 0
    ensures r.lastDraw == s.lastDraw && r.maxLength == s.maxLength
    ensures r.out == if newline then s.out + ["\n"] else s.out
  {
    s.(progress := 0, out := if newline then s.out + ["\n"] else s.out)
  }

  /** Tick(n): add n; below or above the size draw through the throttle
      gate, at exactly the size draw the full bar, print a newline and start
      over. */
  function Tick(s: State, n: int, now: int, cells: FillRule, printFails: bool): (t: Ticked)
    requires CanTick(s, n)
    ensures SameConfig(s, t.state)
    ensures t.state.progress == if s.progress + n == s.size && !t.err then 0 else s.progress + n
    ensures !printFails ==> !t.err
    ensures t.value == if t.err then 0 else t.state.progress
    ensures t.state.maxLength >= s.maxLength
  {
    var s1 := s.(progress := s.progress + n);
    if s1.progress != s1.size then
      var d := DrawProgress(s1, now, cells, printFails);
      if d.err then Ticked(d.state, 0, true) else Ticked(d.state, d.state.progress, false)
    else
      var d := DrawBar(s1, s1.progress, s1.size, cells, printFails);
      if d.err then Ticked(d.state, 0, true)
      else
        var s2 := Clear(d.state, true).(lastDraw := None);
        Ticked(s2, s2.progress, false)
  }

  /** Write(b): Tick(len(b)), returning what Tick returns: the bar's count,
      or 0 with the error, never the number of bytes as such. */
  function Write(s: State, b: seq<byte>, now: int, cells: FillRule, printFails: bool): (t: Ticked)
    requires CanTick(s, |b|)
    ensures SameConfig(s, t.state)
    ensures t.value == if t.err then 0 else t.state.progress
    ensures t.state.progress == if s.progress + |b| == s.size && !t.err then 0 else s.progress + |b|
  {
    Tick(s, |b|, now, cells, printFails)
  }

  /** Tick adds n to the counter before drawing: if the draw it attempts
      fails, the counter keeps the new value, nothing is printed or
      recorded as drawn, and Tick returns 0 with the error. An error comes
      back exactly when a draw is attempted and its print fails. */
  lemma TickError(s: State, n: int, now: int, cells: FillRule, printFails: bool)
    requires CanTick(s, n)
    ensures var t := Tick(s, n, now, cells, printFails);
      && (t.err <==> printFails && (s.progress + n == s.size || RenderDue(s.lastDraw, s.interval, now)))
      && (t.err ==> t.value == 0 && t.state.progress == s.progress + n
                    && t.state.out == s.out && t.state.lastDraw == s.lastDraw)
  {
  }

  /** A Tick that does not reach the size returns the new count and draws
      exactly when the throttle gate lets it: a skipped draw changes
      nothing but the counter, a performed one prints the padded line and
      records `now`. */
  lemma TickBelowSize(s: State, n: int, now: int, cells: FillRule, printFails: bool)
    requires CanTick(s, n) && s.progress + n != s.size
    ensures var t := Tick(s, n, now, cells, printFails);
      var s1 := s.(progress := s.progress + n);
      && t.state.progress == s.progress + n
      && (!t.err ==> t.value == s.progress + n)
      && (!RenderDue(s.lastDraw, s.interval, now) ==> t.state == s1 && !t.err)
      && (RenderDue(s.lastDraw, s.interval, now) ==>
            t.state.maxLength == |Emitted(s1, s1.progress, s.size, cells)| - 1)
      && (RenderDue(s.lastDraw, s.interval, now) && !printFails ==>
            && t.state.out == s.out + [Emitted(s1, s1.progress, s.size, cells)]
            && t.state.lastDraw == Some(now))
  {
  }

  /** The Tick that reaches the size always draws, whatever the gate says:
      the full bar at 100 followed by a newline. It then leaves the counter
      at zero and the last-draw time unset, and returns 0, not the size. */
  lemma TickReachesSize(s: State, n: int, now: int, cells: FillRule)
    requires CanTick(s, n) && s.progress + n == s.size
    ensures var t := Tick(s, n, now, cells, false);
      var s1 := s.(progress := s.size);
      && !t.err && t.value == 0
      && t.state.progress == 0 && t.state.lastDraw == None
      && t.state.out == s.out + [Emitted(s1, s.size, s.size, cells), "\n"]
      && Line(s.template, s.size, s.size, s.width, cells) == Sprintf(s.template, Repeat('=', s.width), "", 100)
  {
  }

  /** What a draw adds after the line is spaces up to the previous length,
      and the new `maxLength` is the printed length without the carriage
      return, so `maxLength` never decreases. */
  lemma DrawPads(s: State, progress: int, total: int, cells: FillRule, printFails: bool)
    requires CanDraw(s, progress, total)
    ensures var line := Line(s.template, progress, total, s.width, cells);
      var e := Emitted(s, progress, total, cells);
      var d := DrawBar(s, progress, total, cells, printFails);
      && (forall i :: |line| <= i < |e| - 1 ==> e[i] == ' ')
      && d.state.maxLength == |e| - 1
  {
  }

  /** The padding length outlives a run: the completing Tick leaves
      `maxLength` at the length of the 100% frame, so every frame of the
      next run is printed at least that long, while the first Tick of the
      next run draws at once whatever the clock says. */
  lemma NextRunPadded(s: State, n: int, now: int, cells: FillRule, p: int, later: int, cells': FillRule)
    requires CanTick(s, n) && s.progress + n == s.size && 0 <= p <= s.size
    ensures var t := Tick(s, n, now, cells, false);
      var final := Emitted(s.(progress := s.size), s.size, s.size, cells);
      && t.state.maxLength == |final| - 1
      && |Emitted(t.state, p, s.size, cells')| >= |final|
      && RenderDue(t.state.lastDraw, t.state.interval, later)
  {
  }

  /** With a one-second interval, a Tick 100ms after a draw that does not
      reach the size prints nothing but still returns the new count. */
  lemma ThrottleSkipsQuickTick(s: State, n: int, last: int, cells: FillRule, printFails: bool)
    requires CanTick(s, n) && s.progress + n != s.size
    requires s.interval == Second && s.lastDraw == Some(last)
    ensures var t := Tick(s, n, last + Second / 10, cells, printFails);
      !t.err && t.value == s.progress + n && t.state.out == s.out
  {
    TickBelowSize(s, n, last + Second / 10, cells, printFails);
  }

  /** A Tick that does not reach the size and comes once the interval has
      passed since the last draw prints the padded line, records `now` and
      returns the new count. */
  lemma TickAfterIntervalDraws(s: State, n: int, last: int, now: int, cells: FillRule)
    requires CanTick(s, n) && s.progress + n != s.size
    requires s.lastDraw == Some(last) && now >= last + s.interval
    ensures var t := Tick(s, n, now, cells, false);
      var s1 := s.(progress := s.progress + n);
      && !t.err && t.value == s.progress + n
      && t.state.out == s.out + [Emitted(s1, s1.progress, s.size, cells)]
      && t.state.lastDraw == Some(now)
  {
    TickBelowSize(s, n, now, cells, false);
  }

  /** Write(b) reports the bar's count, not the number of bytes written. */
  lemma WriteReportsProgress(s: State, b: seq<byte>, now: int, cells: FillRule)
    requires CanTick(s, |b|) && s.progress + |b| != s.size
    ensures Write(s, b, now, cells, false).value == s.progress + |b|
    ensures Write(s, b, now, cells, false).state.progress == s.progress + |b|
  {
    TickBelowSize(s, |b|, now, cells, false);
  }

  /** The counting loop of the archive helpers: Tick(1) once per item, at
      the given clock readings, without print failures. Returns the final
      state and what each Tick returned. */
  function TickEach(s: State, nows: seq<int>, cells: FillRule): (r: (State, seq<int>))
    requires 0 < s.size && 0 <= s.progress && s.progress + |nows| <= s.size
    requires 0 <= s.width && WellFormed(s.template)
    ensures |r.1| == |nows| && SameConfig(s, r.0)
    decreases |nows|
  {
    if nows == [] then (s, [])
    else
      var t := Tick(s, 1, nows[0], cells, false);
      var rest := TickEach(t.state, nows[1..], cells);
      (rest.0, [t.value] + rest.1)
  }

  /** From a count of `p`, Tick(1) repeated up to the size returns p+1,
      p+2, ... and takes the completing branch only on the last call, which
      returns 0 and leaves the counter at zero and the last-draw time
      unset after a final newline. */
  lemma TickEachToSize(s: State, nows: seq<int>, cells: FillRule)
    requires 0 < s.size && 0 <= s.progress && s.progress + |nows| == s.size && |nows| > 0
    requires 0 <= s.width && WellFormed(s.template)
    ensures var r := TickEach(s, nows, cells);
      && (forall i :: 0 <= i < |nows| - 1 ==> r.1[i] == s.progress + i + 1)
      && r.1[|nows| - 1] == 0
      && r.0.progress == 0 && r.0.lastDraw == None
      && |r.0.out| > 0 && r.0.out[|r.0.out| - 1] == "\n"
  {
    TickEachReturns(s, nows, cells);
    TickEachCompletes(s, nows, cells);
  }

  /** Each Tick(1) before the last returns the count so far. */
  lemma {:induction false} TickEachReturns(s: State, nows: seq<int>, cells: FillRule)
    requires 0 < s.size && 0 <= s.progress && s.progress + |nows| == s.size && |nows| > 0
    requires 0 <= s.width && WellFormed(s.template)
    ensures var r := TickEach(s, nows, cells);
      forall i :: 0 <= i < |nows| - 1 ==> r.1[i] == s.progress + i + 1
    decreases |nows|
  {
    if |nows| > 1 {
      var t := Tick(s, 1, nows[0], cells, false);
      FirstTick(s, nows, cells);
      var rest := TickEach(t.state, nows[1..], cells);
      var r := TickEach(s, nows, cells);
      TickEachReturns(t.state, nows[1..], cells);
      forall i | 1 <= i < |nows| - 1
        ensures r.1[i] == s.progress + i + 1
      {
        assert r.1[i] == rest.1[i - 1];
      }
    }
  }

  /** The last Tick(1) completes the run. */
  lemma {:induction false} TickEachCompletes(s: State, nows: seq<int>, cells: FillRule)
    requires 0 < s.size && 0 <= s.progress && s.progress + |nows| == s.size && |nows| > 0
    requires 0 <= s.width && WellFormed(s.template)
    ensures var r := TickEach(s, nows, cells);
      && r.1[|nows| - 1] == 0
      && r.0.progress == 0 && r.0.lastDraw == None
      && |r.0.out| > 0 && r.0.out[|r.0.out| - 1] == "\n"
    decreases |nows|
  {
    if |nows| == 1 {
      LastTick(s, nows[0], cells);
    } else {
      var t := Tick(s, 1, nows[0], cells, false);
      FirstTick(s, nows, cells);
      TickEachCompletes(t.state, nows[1..], cells);
    }
  }

  /** The first of several Tick(1) calls short of the size returns the new
      count and hands the rest of the run a bar one further on. */
  lemma FirstTick(s: State, nows: seq<int>, cells: FillRule)
    requires 0 < s.size && 0 <= s.progress && s.progress + |nows| == s.size && |nows| > 1
    requires 0 <= s.width && WellFormed(s.template)
    ensures var t := Tick(s, 1, nows[0], cells, false);
      var rest := TickEach(t.state, nows[1..], cells);
      && t.value == s.progress + 1 && t.state.progress == s.progress + 1
      && SameConfig(s, t.state)
      && TickEach(s, nows, cells) == (rest.0, [t.value] + rest.1)
  {
    TickBelowSize(s, 1, nows[0], cells, false);
  }

  /** A single Tick(1) one short of the size completes the run. */
  lemma LastTick(s: State, now: int, cells: FillRule)
    requires 0 < s.size && 0 <= s.progress && s.progress + 1 == s.size
    requires 0 <= s.width && WellFormed(s.template)
    ensures var r := TickEach(s, [now], cells);
      && r.1 == [0] && r.0.progress == 0 && r.0.lastDraw == None
      && |r.0.out| > 0 && r.0.out[|r.0.out| - 1] == "\n"
  {
    TickReachesSize(s, 1, now, cells);
    assert [now][1..] == [];
  }

  /** What the archive helpers rely on: after SetSize(N) with N > 0 on a bar
      at zero, N calls of Tick(1) reach the completing branch exactly on the
      N-th call and leave the counter at zero. */
  lemma ArchiveRun(s: State, nows: seq<int>, cells: FillRule)
    requires s.progress == 0 && 0 <= s.width && WellFormed(s.template)
    requires |nows| > 0
    ensures var r := TickEach(s.(size := |nows|), nows, cells);
      && (forall i :: 0 <= i < |nows| - 1 ==> r.1[i] == i + 1)
      && r.1[|nows| - 1] == 0
      && r.0.progress == 0 && r.0.lastDraw == None
      && |r.0.out| > 0 && r.0.out[|r.0.out| - 1] == "\n"
  {
    TickEachToSize(s.(size := |nows|), nows, cells);
  }

  /** The sum of the counts passed to successive Tick (or Write) calls. */
  function Sum(ns: seq<nat>): nat
  {
    if ns == [] then 0 else ns[0] + Sum(ns[1..])
  }

  /** Tick(ns[0]), Tick(ns[1]), ... at the given clock readings, without
      print failures, as a sink fed chunks through Write does. Returns the
      final state and what each Tick returned. */
  function TickSeq(s: State, ns: seq<nat>, nows: seq<int>, cells: FillRule): (r: (State, seq<int>))
    requires |nows| == |ns|
    requires 0 < s.size && 0 <= s.progress && s.progress + Sum(ns) <= s.size
    requires 0 <= s.width && WellFormed(s.template)
    ensures |r.1| == |ns| && SameConfig(s, r.0)
    ensures |ns| > 0 ==> r.1[|ns| - 1] == r.0.progress
    decreases |ns|
  {
    if ns == [] then (s, [])
    else
      var t := Tick(s, ns[0], nows[0], cells, false);
      var rest := TickSeq(t.state, ns[1..], nows[1..], cells);
      (rest.0, [t.value] + rest.1)
  }

  /** Positive counts that add up exactly to what is left of the size: each
      call before the last returns the running total, which stays between 0
      and the size, and only the last call completes, returning 0 and
      leaving the counter at zero, the last-draw time unset and a newline
      last. */
  lemma TickSeqToSize(s: State, ns: seq<nat>, nows: seq<int>, cells: FillRule)
    requires |nows| == |ns| && |ns| > 0 && forall i :: 0 <= i < |ns| ==> ns[i] > 0
    requires 0 < s.size && 0 <= s.progress && s.progress + Sum(ns) == s.size
    requires 0 <= s.width && WellFormed(s.template)
    ensures var r := TickSeq(s, ns, nows, cells);
      && (forall i :: 0 <= i < |ns| - 1 ==> r.1[i] == s.progress + Sum(ns[..i + 1]) && 0 < r.1[i] < s.size)
      && r.1[|ns| - 1] == 0
      && r.0.progress == 0 && r.0.lastDraw == None
      && |r.0.out| > 0 && r.0.out[|r.0.out| - 1] == "\n"
  {
    TickSeqReturns(s, ns, nows, cells);
    TickSeqCompletes(s, ns, nows, cells);
  }

  /** Each call before the last returns the running total, below the size. */
  lemma {:induction false} TickSeqReturns(s: State, ns: seq<nat>, nows: seq<int>, cells: FillRule)
    requires |nows| == |ns| && |ns| > 0 && forall i :: 0 <= i < |ns| ==> ns[i] > 0
    requires 0 < s.size && 0 <= s.progress && s.progress + Sum(ns) == s.size
    requires 0 <= s.width && WellFormed(s.template)
    ensures var r := TickSeq(s, ns, nows, cells);
      forall i :: 0 <= i < |ns| - 1 ==> r.1[i] == s.progress + Sum(ns[..i + 1]) && 0 < r.1[i] < s.size
    decreases |ns|
  {
    if |ns| > 1 {
      var t := Tick(s, ns[0], nows[0], cells, false);
      FirstStep(s, ns, nows, cells);
      var rest := TickSeq(t.state, ns[1..], nows[1..], cells);
      TickSeqReturns(t.state, ns[1..], nows[1..], cells);
      RunningTotals(s.progress, s.size, ns, t.value, rest.1);
    }
  }

  /** Running totals after a first count: prefixing the first return to
      the running totals of the rest gives the running totals of all. */
  lemma RunningTotals(p: int, size: int, ns: seq<nat>, first: int, rest: seq<int>)
    requires |ns| > 1 && |rest| == |ns| - 1 && first == p + ns[0] && 0 < first < size
    requires forall i :: 0 <= i < |ns| - 2 ==> rest[i] == first + Sum(ns[1..][..i + 1]) && 0 < rest[i] < size
    ensures var v := [first] + rest;
      forall i :: 0 <= i < |ns| - 1 ==> v[i] == p + Sum(ns[..i + 1]) && 0 < v[i] < size
  {
    var v := [first] + rest;
    SumPrefix(ns, 0);
    forall i | 1 <= i < |ns| - 1
      ensures v[i] == p + Sum(ns[..i + 1])
    {
      assert v[i] == rest[i - 1];
      SumPrefix(ns, i);
    }
  }

  /** The last call completes: it leaves the counter at zero, the
      last-draw time unset and a newline last. */
  lemma {:induction false} TickSeqCompletes(s: State, ns: seq<nat>, nows: seq<int>, cells: FillRule)
    requires |nows| == |ns| && |ns| > 0 && forall i :: 0 <= i < |ns| ==> ns[i] > 0
    requires 0 < s.size && 0 <= s.progress && s.progress + Sum(ns) == s.size
    requires 0 <= s.width && WellFormed(s.template)
    ensures var r := TickSeq(s, ns, nows, cells);
      && r.0.progress == 0 && r.0.lastDraw == None
      && |r.0.out| > 0 && r.0.out[|r.0.out| - 1] == "\n"
    decreases |ns|
  {
    if |ns| == 1 {
      LastStep(s, ns, nows, cells);
    } else {
      var t := Tick(s, ns[0], nows[0], cells, false);
      FirstStep(s, ns, nows, cells);
      TickSeqCompletes(t.state, ns[1..], nows[1..], cells);
    }
  }

  /** A running total splits into the first count and the running total
      of the rest. */
  lemma SumPrefix(ns: seq<nat>, i: int)
    requires 0 <= i < |ns|
    ensures Sum(ns[..i + 1]) == ns[0] + Sum(ns[1..][..i])
  {
    assert ns[..i + 1][1..] == ns[1..][..i];
  }

  /** A single count that reaches the size completes the run. */
  lemma LastStep(s: State, ns: seq<nat>, nows: seq<int>, cells: FillRule)
    requires |nows| == |ns| == 1
    requires 0 < s.size && 0 <= s.progress && s.progress + Sum(ns) == s.size
    requires 0 <= s.width && WellFormed(s.template)
    ensures var r := TickSeq(s, ns, nows, cells);
      && r.1 == [0] && r.0.progress == 0 && r.0.lastDraw == None
      && |r.0.out| > 0 && r.0.out[|r.0.out| - 1] == "\n"
  {
    assert ns[1..] == [] && nows[1..] == [];
    TickReachesSize(s, ns[0], nows[0], cells);
  }

  /** The first of several positive counts that together reach the size
      stays below it: Tick returns the running total and hands the rest of
      the calls a bar that far on. */
  lemma FirstStep(s: State, ns: seq<nat>, nows: seq<int>, cells: FillRule)
    requires |nows| == |ns| && |ns| > 1 && forall i :: 0 <= i < |ns| ==> ns[i] > 0
    requires 0 < s.size && 0 <= s.progress && s.progress + Sum(ns) == s.size
    requires 0 <= s.width && WellFormed(s.template)
    ensures var t := Tick(s, ns[0], nows[0], cells, false);
      var rest := TickSeq(t.state, ns[1..], nows[1..], cells);
      && t.value == s.progress + ns[0] && 0 < t.value < s.size
      && t.state.progress == t.value && SameConfig(s, t.state)
      && t.state.progress + Sum(ns[1..]) == s.size
      && TickSeq(s, ns, nows, cells) == (rest.0, [t.value] + rest.1)
  {
    assert Sum(ns[1..]) >= ns[1] > 0;
    TickBelowSize(s, ns[0], nows[0], cells, false);
  }
}
