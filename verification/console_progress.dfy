/** Package console: the Progress type, the same bar as Progress.Bar with
    setters that return nothing and a constructor that stores its default
    template as it is. Each method is proved to do what the functions of
    BarState say. */
module Console {
  import opened Text
  import opened Render
  import opened BarState

  /** The default template: the bar, a space and the percentage. */
  const ProgressBasicTemplate: string := "{{bar}} {{percent}}"

  class Progress {
    var size: int
    var template: string
    var width: int
    var interval: int
    var progress: int
    var lastDraw: Option<int>
    var maxLength: int
    /** What this bar has printed to standard output. */
    var out: seq<string>

    /** The bar's fields as a value. */
    function View(): BarState.State
      reads this
    {
      BarState.State(size, template, width, interval, progress, lastDraw, maxLength, out)
    }

    /** The composite literal &Progress{template: t, width: w, interval: i};
        every other field takes its zero value. */
    constructor (t: string, w: int, i: int)
      ensures View() == BarState.State(0, t, w, i, 0, None, 0, [])
    {
      size, template, width, interval := 0, t, w, i;
      progress, lastDraw, maxLength, out := 0, None, 0, [];
    }

    method SetSize(s: int)
      modifies this
      ensures View() == old(View()).(size := s)
    {
      size := s;
    }

    /** Stores the compiled form of `t`. */
    method SetTemplate(t: string)
      modifies this
      ensures View() == old(View()).(template := CompileTemplate(t))
      ensures !Contains(template, BarPlaceholder) && !Contains(template, PercentPlaceholder)
    {
      template := ReplaceAll(ReplaceAll(t, BarPlaceholder, BarVerbs), PercentPlaceholder, PercentVerbs);
    }

    method SetWidth(w: int)
      modifies this
      ensures View() == old(View()).(width := w)
    {
      width := w;
    }

    method SetInterval(i: int)
      modifies this
      ensures View() == old(View()).(interval := i)
    {
      interval := i;
    }

    method Write(b: seq<byte>, now: int, cells: FillRule, printFails: bool) returns (n: int, err: bool)
      requires CanTick(View(), |b|)
      modifies this
      ensures var t := BarState.Write(old(View()), b, now, cells, printFails);
        View() == t.state && n == t.value && err == t.err
    {
      n, err := Tick(|b|, now, cells, printFails);
    }

    method Tick(n: int, now: int, cells: FillRule, printFails: bool) returns (value: int, err: bool)
      requires CanTick(View(), n)
      modifies this
      ensures var t := BarState.Tick(old(View()), n, now, cells, printFails);
        View() == t.state && value == t.value && err == t.err
    {
      progress := progress + n;
      if progress != size {
        err := DrawProgress(now, cells, printFails);
        if err {
          return 0, true;
        }
      } else {
        err := DrawBar(progress, size, cells, printFails);
        if err {
          return 0, true;
        }
        Clear(true);
        lastDraw := None;
      }
      return progress, false;
    }

    method Clear(newline: bool)
      modifies this
      ensures View() == old(View()).(progress := 0, out := if newline then old(out) + ["\n"] else old(out))
    {
      progress := 0;
      if newline {
        out := out + ["\n"];
      }
    }

    method DrawProgress(now: int, cells: FillRule, printFails: bool) returns (err: bool)
      requires CanDraw(View(), progress, size)
      modifies this
      ensures var d := BarState.DrawProgress(old(View()), now, cells, printFails);
        View() == d.state && err == d.err
    {
      if lastDraw.Some? && interval != NoThrottle {
        var nextDraw := lastDraw.value + interval;
        if now < nextDraw {
          return false;
        }
      }
      err := DrawBar(progress, size, cells, printFails);
      if err {
        return;
      }
      lastDraw := Some(now);
    }

    method DrawBar(p: int, total: int, cells: FillRule, printFails: bool) returns (err: bool)
      requires CanDraw(View(), p, total)
      modifies this
      ensures var d := BarState.DrawBar(old(View()), p, total, cells, printFails);
        View() == d.state && err == d.err
    {
      var line := Line(template, p, total, width, cells);
      if |line| < maxLength {
        line := line + Repeat(' ', maxLength - |line|);
      }
      maxLength := |line|;
      err := printFails;
      if !printFails {
        out := out + [line + "\r"];
      }
    }
  }

  /** NewProgress: width 10 cells, a one-second interval and the default
      template stored as it is, placeholders and all. */
  method NewProgress() returns (p: Progress)
    ensures fresh(p)
    ensures p.View() == BarState.State(0, "{{bar}} {{percent}}", 10, Second, 0, None, 0, [])
  {
    p := new Progress(ProgressBasicTemplate, 10, Second);
  }

  /** A bar made by NewProgress and sized, without SetTemplate, prints the
      placeholders themselves followed by fmt's report of the three unused
      arguments: its first Tick(50) of 100 prints
      "{{bar}} {{percent}}%!(EXTRA string=..., string=..., int64=50)". */
  lemma RawTemplateFirstTick(now: int, cells: FillRule)
    ensures var s := BarState.State(100, "{{bar}} {{percent}}", 10, Second, 0, None, 0, []);
      WellFormed(s.template) &&
      var t := BarState.Tick(s, 50, now, cells, false);
      var c := cells(50, 100, 10);
      && 0 <= c <= 10
      && t.value == 50 && !t.err
      && t.state.out == ["{{bar}} {{percent}}" + Extra(Repeat('=', c), Repeat(' ', 10 - c), 50) + "\r"]
  {
    var s := BarState.State(100, "{{bar}} {{percent}}", 10, Second, 0, None, 0, []);
    RawTemplateEmitted(s.(progress := 50), cells);
    TickBelowSize(s, 50, now, cells, false);
  }

  /** The text the first Tick(50) prints from the uncompiled template. */
  lemma RawTemplateEmitted(s: BarState.State, cells: FillRule)
    requires s.size == 100 && s.template == "{{bar}} {{percent}}" && s.width == 10
    requires s.progress == 50 && s.maxLength == 0
    ensures WellFormed(s.template)
    ensures var c := cells(50, 100, 10);
      Emitted(s, 50, 100, cells) == "{{bar}} {{percent}}" + Extra(Repeat('=', c), Repeat(' ', 10 - c), 50) + "\r"
  {
    RawTemplateLine(s.template, 50, 100, 10, cells);
    assert Percent(50, 100) == 50;
  }

  /** The line drawBar formats from the uncompiled default template. */
  lemma RawTemplateLine(t: string, progress: int, total: int, width: int, cells: FillRule)
    requires t == "{{bar}} {{percent}}"
    requires 0 < total && 0 <= progress <= total && 0 <= width
    ensures WellFormed(t)
    ensures var c := cells(progress, total, width);
      Line(t, progress, total, width, cells)
        == t + Extra(Repeat('=', c), Repeat(' ', width - c), Percent(progress, total))
  {
    var bar := Segment(progress, total, width, cells);
    assert '%' !in t;
    PlainText(t, bar.0, bar.1, Percent(progress, total));
  }

  /** NewProgress as it is evidently meant, matching progress.NewBar: the
      default template is compiled before the bar is handed out, so that
      every line is the bracketed bar and the percentage. */
  method NewCompiledProgress() returns (p: Progress)
    ensures fresh(p)
    ensures p.View() == BarState.State(0, "[%[1]s%[2]s] %[3]d%%", 10, Second, 0, None, 0, [])
    ensures WellFormed(p.template) && UsesArgument(p.template)
  {
    p := new Progress(ProgressBasicTemplate, 10, Second);
    p.SetTemplate(ProgressBasicTemplate);
    CompileBasicTemplate();
    FormatBasicTemplate("", "", 0);
  }
}
