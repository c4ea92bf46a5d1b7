/** Package progress: the Bar type, whose setters return the bar itself so
    that calls chain. Each method updates the bar's fields in place and is
    proved to do what the functions of BarState say. */
module Progress {
  import opened Text
  import opened Render
  import opened BarState

  /** The default template: the bar, a space and the percentage. */
  const BasicTemplate: string := "{{bar}} {{percent}}"

  class Bar {
    var size: int
    var template: string
    var width: int
    var interval: int
    var progress: int
    var lastDraw: Option<int>
    var maxLength: int
    /** What this bar has printed to standard output. */
    var out: seq<string>

    /** The bar's fields as a value. */
    function View(): BarState.State
      reads this
    {
      BarState.State(size, template, width, interval, progress, lastDraw, maxLength, out)
    }

    /** The zero value &Bar{}. */
    constructor ()
      ensures View() == BarState.State(0, "", 0, 0, 0, None, 0, [])
    {
      size, template, width, interval := 0, "", 0, 0;
      progress, lastDraw, maxLength, out := 0, None, 0, [];
    }

    method SetSize(s: int) returns (r: Bar)
      modifies this
      ensures r == this && View() == old(View()).(size := s)
    {
      size := s;
      r := this;
    }

    /** Stores the compiled form of `t`. */
    method SetTemplate(t: string) returns (r: Bar)
      modifies this
      ensures r == this && View() == old(View()).(template := CompileTemplate(t))
      ensures !Contains(template, BarPlaceholder) && !Contains(template, PercentPlaceholder)
    {
      template := ReplaceAll(ReplaceAll(t, BarPlaceholder, BarVerbs), PercentPlaceholder, PercentVerbs);
      r := this;
    }

    method SetWidth(w: int) returns (r: Bar)
      modifies this
      ensures r == this && View() == old(View()).(width := w)
    {
      width := w;
      r := this;
    }

    method SetInterval(i: int) returns (r: Bar)
      modifies this
      ensures r == this && View() == old(View()).(interval := i)
    {
      interval := i;
      r := this;
    }

    method Write(b: seq<byte>, now: int, cells: FillRule, printFails: bool) returns (n: int, err: bool)
      requires CanTick(View(), |b|)
      modifies this
      ensures var t := BarState.Write(old(View()), b, now, cells, printFails);
        View() == t.state && n == t.value && err == t.err
    {
      n, err := Tick(|b|, now, cells, printFails);
    }

    method Tick(n: int, now: int, cells: FillRule, printFails: bool) returns (value: int, err: bool)
      requires CanTick(View(), n)
      modifies this
      ensures var t := BarState.Tick(old(View()), n, now, cells, printFails);
        View() == t.state && value == t.value && err == t.err
    {
      progress := progress + n;
      if progress != size {
        err := DrawProgress(now, cells, printFails);
        if err {
          return 0, true;
        }
      } else {
        err := DrawBar(progress, size, cells, printFails);
        if err {
          return 0, true;
        }
        Clear(true);
        lastDraw := None;
      }
      return progress, false;
    }

    method Clear(newline: bool)
      modifies this
      ensures View() == old(View()).(progress := 0, out := if newline then old(out) + ["\n"] else old(out))
    {
      progress := 0;
      if newline {
        out := out + ["\n"];
      }
    }

    method DrawProgress(now: int, cells: FillRule, printFails: bool) returns (err: bool)
      requires CanDraw(View(), progress, size)
      modifies this
      ensures var d := BarState.DrawProgress(old(View()), now, cells, printFails);
        View() == d.state && err == d.err
    {
      if lastDraw.Some? && interval != NoThrottle {
        var nextDraw := lastDraw.value + interval;
        if now < nextDraw {
          return false;
        }
      }
      err := DrawBar(progress, size, cells, printFails);
      if err {
        return;
      }
      lastDraw := Some(now);
    }

    method DrawBar(p: int, total: int, cells: FillRule, printFails: bool) returns (err: bool)
      requires CanDraw(View(), p, total)
      modifies this
      ensures var d := BarState.DrawBar(old(View()), p, total, cells, printFails);
        View() == d.state && err == d.err
    {
      var line := Line(template, p, total, width, cells);
      if |line| < maxLength {
        line := line + Repeat(' ', maxLength - |line|);
      }
      maxLength := |line|;
      err := printFails;
      if !printFails {
        out := out + [line + "\r"];
      }
    }
  }

  /** NewBar: a zero bar given the compiled default template, a width of
      10 cells and a one-second interval. */
  method NewBar() returns (b: Bar)
    ensures fresh(b)
    ensures b.View() == BarState.State(0, "[%[1]s%[2]s] %[3]d%%", 10, Second, 0, None, 0, [])
  {
    var zero := new Bar();
    var r := zero.SetTemplate(BasicTemplate);
    r := r.SetWidth(10);
    b := r.SetInterval(Second);
    CompileBasicTemplate();
  }

  /** A new bar sized 100 and ticked by 50 twice: the first Tick draws at
      once (nothing was drawn yet), showing 50; the second reaches the size
      and prints "[==========] 100%" and a newline, and the bar is back at
      zero. */
  lemma DefaultBarRun(first: int, second: int, cells: FillRule)
    ensures var s := BarState.State(100, "[%[1]s%[2]s] %[3]d%%", 10, Second, 0, None, 0, []);
      WellFormed(s.template) &&
      var t1 := BarState.Tick(s, 50, first, cells, false);
      var t2 := BarState.Tick(t1.state, 50, second, cells, false);
      var c := cells(50, 100, 10);
      && 0 <= c <= 10
      && t1.value == 50 && t2.value == 0
      && t2.state.out == ["[" + Repeat('=', c) + Repeat(' ', 10 - c) + "] 50%\r", "[==========] 100%\r", "\n"]
      && t2.state.progress == 0 && t2.state.lastDraw == None
  {
    var s := BarState.State(100, "[%[1]s%[2]s] %[3]d%%", 10, Second, 0, None, 0, []);
    HalfwayTick(s, first, cells);
    var t1 := BarState.Tick(s, 50, first, cells, false);
    FinalTick(t1.state, second, cells);
  }

  /** The first Tick(50) on the new bar sized 100. */
  lemma HalfwayTick(s: BarState.State, now: int, cells: FillRule)
    requires s == BarState.State(100, "[%[1]s%[2]s] %[3]d%%", 10, Second, 0, None, 0, [])
    ensures WellFormed(s.template)
    ensures var t := BarState.Tick(s, 50, now, cells, false);
      var c := cells(50, 100, 10);
      && t.value == 50 && !t.err
      && t.state.out == ["[" + Repeat('=', c) + Repeat(' ', 10 - c) + "] 50%\r"]
      && SameConfig(s, t.state) && t.state.progress == 50 && t.state.maxLength == 16
  {
    HalfwayLine(s.(progress := 50), cells);
    TickBelowSize(s, 50, now, cells, false);
  }

  /** The line the first Tick(50) prints. */
  lemma HalfwayLine(s: BarState.State, cells: FillRule)
    requires s.size == 100 && s.template == "[%[1]s%[2]s] %[3]d%%" && s.width == 10
    requires s.progress == 50 && s.maxLength == 0
    ensures WellFormed(s.template)
    ensures var c := cells(50, 100, 10);
      Emitted(s, 50, 100, cells) == "[" + Repeat('=', c) + Repeat(' ', 10 - c) + "] 50%\r"
  {
    HalfwayFrame(s.template, cells);
  }

  lemma HalfwayFrame(t: string, cells: FillRule)
    requires t == "[%[1]s%[2]s] %[3]d%%"
    ensures WellFormed(t)
    ensures var c := cells(50, 100, 10);
      Line(t, 50, 100, 10, cells) == "[" + Repeat('=', c) + Repeat(' ', 10 - c) + "] 50%"
  {
    var c := cells(50, 100, 10);
    BasicLine(50, 100, 10, cells);
    HalfPercent("[" + Repeat('=', c), Repeat(' ', 10 - c));
  }

  lemma HalfPercent(fill: string, blank: string)
    ensures fill + blank + "] " + Decimal(Percent(50, 100)) + "%" == fill + blank + "] 50%"
  {
    assert Percent(50, 100) == 50;
    assert Decimal(5) == "5";
  }

  /** The second Tick(50), which reaches the size. */
  lemma FinalTick(s: BarState.State, now: int, cells: FillRule)
    requires s.size == 100 && s.template == "[%[1]s%[2]s] %[3]d%%" && s.width == 10
    requires s.progress == 50 && s.maxLength == 16
    ensures WellFormed(s.template)
    ensures var t := BarState.Tick(s, 50, now, cells, false);
      && t.value == 0 && !t.err
      && t.state.out == s.out + ["[==========] 100%\r", "\n"]
      && t.state.progress == 0 && t.state.lastDraw == None
  {
    FinalLine(s.(progress := 100), cells);
    TickReachesSize(s, 50, now, cells);
  }

  /** The line the second Tick(50) prints. */
  lemma FinalLine(s: BarState.State, cells: FillRule)
    requires s.size == 100 && s.template == "[%[1]s%[2]s] %[3]d%%" && s.width == 10
    requires s.progress == 100 && s.maxLength == 16
    ensures WellFormed(s.template)
    ensures Emitted(s, 100, 100, cells) == "[==========] 100%\r"
  {
    FinalFrame(s.template, cells);
  }

  lemma FinalFrame(t: string, cells: FillRule)
    requires t == "[%[1]s%[2]s] %[3]d%%"
    ensures WellFormed(t)
    ensures Line(t, 100, 100, 10, cells) == "[==========] 100%"
  {
    CompletedBasicLine(100, 10, cells);
    TenFillCells();
  }

  lemma TenFillCells()
    ensures "[" + Repeat('=', 10) + "] 100%" == "[==========] 100%"
  {
    assert Repeat('=', 10) == "==========";
  }
}
