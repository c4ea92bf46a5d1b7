/** The pure half of the progress bar: compiling a display template into a
    format string (SetTemplate), interpreting that format string the way
    fmt.Sprintf does for the verbs it can contain, the percent and bar
    arithmetic, and the right-padding of drawBar. */
module Render {
  import opened Text

  /** The two placeholders of the template mini-language. */
  const BarPlaceholder: string := "{{bar}}"
  const PercentPlaceholder: string := "{{percent}}"

  /** What SetTemplate puts in their place. */
  const BarVerbs: string := "[%[1]s%[2]s]"
  const PercentVerbs: string := "%[3]d%%"

  /** The verbs of a compiled template: fill segment, blank segment,
      percent value, and a literal percent sign. */
  const FillVerb: string := "%[1]s"
  const BlankVerb: string := "%[2]s"
  const PercentValueVerb: string := "%[3]d"
  const PercentSign: string := "%%"

  /** SetTemplate's rewrite: every "{{bar}}" becomes the bracketed fill and
      blank verbs, then every "{{percent}}" becomes the percent verb. No
      placeholder is left behind. */
  function CompileTemplate(t: string): (r: string)
    ensures !Contains(r, BarPlaceholder) && !Contains(r, PercentPlaceholder)
  {
    var once := ReplaceAll(t, BarPlaceholder, BarVerbs);
    ReplaceAllRemoves(t, BarPlaceholder, BarVerbs);
    ReplaceAllKeepsAbsent(once, PercentPlaceholder, PercentVerbs, BarPlaceholder);
    ReplaceAllRemoves(once, PercentPlaceholder, PercentVerbs);
    ReplaceAll(once, PercentPlaceholder, PercentVerbs)
  }

  /** Compiling an already compiled template changes nothing, so
      SetTemplate(Template()) leaves the template as it is. */
  lemma CompileIdempotent(t: string)
    ensures CompileTemplate(CompileTemplate(t)) == CompileTemplate(t)
  {
    var c := CompileTemplate(t);
    ReplaceAllNoMatch(c, BarPlaceholder, BarVerbs);
    ReplaceAllNoMatch(c, PercentPlaceholder, PercentVerbs);
  }

  /** One left-to-right pass that puts `barText` for each "{{bar}}" and
      `percentText` for each "{{percent}}": the reference reading of a
      template. */
  function Substitute(t: string, barText: string, percentText: string): string
    decreases |t|
  {
    if t == [] then []
    else if IsPrefix(BarPlaceholder, t) then barText + Substitute(t[|BarPlaceholder|..], barText, percentText)
    else if IsPrefix(PercentPlaceholder, t) then percentText + Substitute(t[|PercentPlaceholder|..], barText, percentText)
    else [t[0]] + Substitute(t[1..], barText, percentText)
  }

  /** "{{percent}}" holds no "{{bar}}", so the first rewrite copies it. */
  lemma PercentPlaceholderSurvives(y: string)
    ensures ReplaceAll(PercentPlaceholder + y, BarPlaceholder, BarVerbs)
         == PercentPlaceholder + ReplaceAll(y, BarPlaceholder, BarVerbs)
  {
    var p := PercentPlaceholder;
    var s := p + y;
    assert s[2] == 'p';
    assert !IsPrefix(BarPlaceholder, s);
    assert s[1..][1] == 'p';
    assert !IsPrefix(BarPlaceholder, s[1..]);
    assert s[1..][1..] == p[2..] + y;
    ReplaceAllSkip(p[2..], y, BarPlaceholder, BarVerbs);
    assert [s[0]] + ([s[1..][0]] + p[2..]) == p;
  }

  /** The two chained rewrites of SetTemplate are one left-to-right
      substitution pass. */
  lemma {:induction false} CompileIsSubstitute(t: string)
    ensures CompileTemplate(t) == Substitute(t, BarVerbs, PercentVerbs)
    decreases |t|
  {
    if t != [] {
      if IsPrefix(BarPlaceholder, t) {
        var rest := t[|BarPlaceholder|..];
        ReplaceAllSkip(BarVerbs, ReplaceAll(rest, BarPlaceholder, BarVerbs), PercentPlaceholder, PercentVerbs);
        CompileIsSubstitute(rest);
      } else if IsPrefix(PercentPlaceholder, t) {
        var rest := t[|PercentPlaceholder|..];
        assert t == PercentPlaceholder + rest;
        PercentPlaceholderSurvives(rest);
        var y := ReplaceAll(rest, BarPlaceholder, BarVerbs);
        assert (PercentPlaceholder + y)[|PercentPlaceholder|..] == y;
        CompileIsSubstitute(rest);
      } else {
        var once := ReplaceAll(t, BarPlaceholder, BarVerbs);
        if IsPrefix(PercentPlaceholder, once) {
          PrefixOfReplaced(t, BarPlaceholder, BarVerbs, PercentPlaceholder);
          assert false;
        }
        assert once == [t[0]] + ReplaceAll(t[1..], BarPlaceholder, BarVerbs);
        assert once[1..] == ReplaceAll(t[1..], BarPlaceholder, BarVerbs);
        CompileIsSubstitute(t[1..]);
      }
    }
  }

  /** The template that NewBar compiles compiles to the bracketed bar, a
      space and the percent verb. */
  lemma CompileBasicTemplate()
    ensures CompileTemplate("{{bar}} {{percent}}") == "[%[1]s%[2]s] %[3]d%%"
  {
    CompileIsSubstitute("{{bar}} {{percent}}");
    SubstituteBasicTemplate(BarVerbs, PercentVerbs);
    BasicVerbsSpelled();
  }

  lemma BasicVerbsSpelled()
    ensures BarVerbs + " " + PercentVerbs == "[%[1]s%[2]s] %[3]d%%"
  {
  }

  /** Reading the default template: the bar text, a space, the percent text. */
  lemma SubstituteBasicTemplate(barText: string, percentText: string)
    ensures Substitute("{{bar}} {{percent}}", barText, percentText) == barText + " " + percentText
  {
    var tail := PercentPlaceholder + [];
    assert "{{bar}} {{percent}}" == BarPlaceholder + ([' '] + tail);
    SubstitutePercent([], barText, percentText);
    SubstituteChar(' ', tail, barText, percentText);
    SubstituteBar([' '] + tail, barText, percentText);
  }

  lemma SubstituteBar(y: string, barText: string, percentText: string)
    ensures Substitute(BarPlaceholder + y, barText, percentText) == barText + Substitute(y, barText, percentText)
  {
    var t := BarPlaceholder + y;
    assert t[..|BarPlaceholder|] == BarPlaceholder && t[|BarPlaceholder|..] == y;
  }

  lemma SubstitutePercent(y: string, barText: string, percentText: string)
    ensures Substitute(PercentPlaceholder + y, barText, percentText) == percentText + Substitute(y, barText, percentText)
  {
    var t := PercentPlaceholder + y;
    assert t[..|PercentPlaceholder|] == PercentPlaceholder && t[|PercentPlaceholder|..] == y;
    assert t[2] == 'p' != BarPlaceholder[2];
  }

  lemma SubstituteChar(c: char, y: string, barText: string, percentText: string)
    requires c != '{'
    ensures Substitute([c] + y, barText, percentText) == [c] + Substitute(y, barText, percentText)
  {
    var t := [c] + y;
    assert t[0] == c && t[1..] == y;
    assert BarPlaceholder[0] == PercentPlaceholder[0] == '{';
  }

  /** Is `t` starting with one of the three argument verbs? */
  predicate StartsWithArgumentVerb(t: string) {
    IsPrefix(FillVerb, t) || IsPrefix(BlankVerb, t) || IsPrefix(PercentValueVerb, t)
  }

  /** Every '%' of `t` opens one of the four verbs a compiled template may
      hold, reading the verbs from the left as fmt does. */
  predicate WellFormed(t: string)
    decreases |t|
  {
    if t == [] then true
    else if StartsWithArgumentVerb(t) then WellFormed(t[5..])
    else if IsPrefix(PercentSign, t) then WellFormed(t[2..])
    else t[0] != '%' && WellFormed(t[1..])
  }

  /** `t` uses at least one argument; a format string that uses none makes
      fmt append a %!(EXTRA ...) report, which this model leaves out. */
  predicate UsesArgument(t: string)
    decreases |t|
  {
    if t == [] then false
    else if StartsWithArgumentVerb(t) then true
    else if IsPrefix(PercentSign, t) then UsesArgument(t[2..])
    else UsesArgument(t[1..])
  }

  /** The verbs of a well-formed `t` read as fmt.Sprintf reads them,
      without the report of unused arguments. */
  function Format(t: string, fill: string, blank: string, percent: int): string
    requires WellFormed(t)
    decreases |t|
  {
    if t == [] then []
    else if IsPrefix(FillVerb, t) then fill + Format(t[5..], fill, blank, percent)
    else if IsPrefix(BlankVerb, t) then blank + Format(t[5..], fill, blank, percent)
    else if IsPrefix(PercentValueVerb, t) then Decimal(percent) + Format(t[5..], fill, blank, percent)
    else if IsPrefix(PercentSign, t) then "%" + Format(t[2..], fill, blank, percent)
    else [t[0]] + Format(t[1..], fill, blank, percent)
  }

  /** What fmt appends when a format string that picks no argument by
      index leaves the three arguments of drawBar unused: each with its Go
      type, "string" for the two segments and "int64" for the percentage. */
  function Extra(fill: string, blank: string, percent: int): (r: string)
    ensures IsPrefix("%!(EXTRA string=", r) && r[|r| - 1] == ')'
  {
    "%!(EXTRA string=" + fill + ", string=" + blank + ", int64=" + Decimal(percent) + ")"
  }

  /** fmt.Sprintf(t, fill, blank, percent) for a well-formed `t`. fmt
      reports the unused arguments only when no verb picked an argument by
      index; with the three indexed verbs every argument counts as used. */
  function Sprintf(t: string, fill: string, blank: string, percent: int): (r: string)
    requires WellFormed(t)
    ensures IsPrefix(Format(t, fill, blank, percent), r)
    ensures |r| == |Format(t, fill, blank, percent)| <==> UsesArgument(t)
  {
    Format(t, fill, blank, percent) + (if UsesArgument(t) then "" else Extra(fill, blank, percent))
  }

  /** A text without '%' is a well-formed format string that prints as
      itself and uses no argument, so Sprintf adds the EXTRA report. */
  lemma {:induction false} PlainText(t: string, fill: string, blank: string, percent: int)
    requires '%' !in t
    ensures WellFormed(t) && !UsesArgument(t)
    ensures Format(t, fill, blank, percent) == t
    ensures Sprintf(t, fill, blank, percent) == t + Extra(fill, blank, percent)
    decreases |t|
  {
    if t != [] {
      assert t[0] in t;
      assert forall c :: c in t[1..] ==> c in t;
      PlainText(t[1..], fill, blank, percent);
      assert !StartsWithArgumentVerb(t) && !IsPrefix(PercentSign, t) by {
        assert FillVerb[0] == BlankVerb[0] == PercentValueVerb[0] == PercentSign[0] == '%';
      }
      assert [t[0]] + t[1..] == t;
    }
  }

  /** A character other than '%' in front of a format string prints as
      itself. */
  lemma LiteralThen(c: char, s: string, fill: string, blank: string, percent: int)
    requires c != '%' && WellFormed(s)
    ensures WellFormed([c] + s)
    ensures UsesArgument([c] + s) == UsesArgument(s)
    ensures Format([c] + s, fill, blank, percent) == [c] + Format(s, fill, blank, percent)
  {
    assert ([c] + s)[1..] == s;
  }

  /** Each argument verb prints its argument: the fill segment, the blank
      segment or the percentage in decimal. */
  lemma ArgumentVerbThen(v: string, s: string, fill: string, blank: string, percent: int)
    requires v == FillVerb || v == BlankVerb || v == PercentValueVerb
    requires WellFormed(s)
    ensures WellFormed(v + s) && UsesArgument(v + s)
    ensures Format(v + s, fill, blank, percent)
         == (if v == FillVerb then fill else if v == BlankVerb then blank else Decimal(percent))
          + Format(s, fill, blank, percent)
  {
    var t := v + s;
    assert t[..5] == v && t[5..] == s;
    assert IsPrefix(v, t);
    assert t[2] == v[2];
    if v == BlankVerb {
      assert t[2] == '2' && FillVerb[2] == '1';
      assert !IsPrefix(FillVerb, t);
    } else if v == PercentValueVerb {
      assert t[2] == '3' && FillVerb[2] == '1' && BlankVerb[2] == '2';
      assert !IsPrefix(FillVerb, t) && !IsPrefix(BlankVerb, t);
    }
  }

  /** The bar verbs print the fill and blank segments between brackets. */
  lemma BarVerbsThen(s: string, fill: string, blank: string, percent: int)
    requires WellFormed(s)
    ensures WellFormed(BarVerbs + s) && UsesArgument(BarVerbs + s)
    ensures Format(BarVerbs + s, fill, blank, percent) == "[" + fill + blank + "]" + Format(s, fill, blank, percent)
  {
    var t3 := [']'] + s;
    var t2 := BlankVerb + t3;
    var t1 := FillVerb + t2;
    BarVerbsParts(s);
    LiteralThen(']', s, fill, blank, percent);
    ArgumentVerbThen(BlankVerb, t3, fill, blank, percent);
    ArgumentVerbThen(FillVerb, t2, fill, blank, percent);
    LiteralThen('[', t1, fill, blank, percent);
    Bracketed(fill, blank, Format(s, fill, blank, percent));
  }

  /** The bar verbs are "[", the fill verb, the blank verb and "]". */
  lemma BarVerbsParts(s: string)
    ensures BarVerbs + s == ['['] + (FillVerb + (BlankVerb + ([']'] + s)))
  {
    assert BarVerbs == ['['] + FillVerb + BlankVerb + [']'];
  }

  lemma Bracketed(fill: string, blank: string, f: string)
    ensures ['['] + (fill + (blank + ([']'] + f))) == "[" + fill + blank + "]" + f
  {
  }

  /** The percent verbs are the value verb followed by the escaped sign. */
  lemma PercentVerbsParts(s: string)
    ensures PercentVerbs + s == PercentValueVerb + (PercentSign + s)
  {
    assert PercentVerbs == PercentValueVerb + PercentSign;
  }

  /** An escaped percent sign prints as one '%'. */
  lemma PercentSignThen(s: string, fill: string, blank: string, percent: int)
    requires WellFormed(s)
    ensures WellFormed(PercentSign + s) && UsesArgument(PercentSign + s) == UsesArgument(s)
    ensures Format(PercentSign + s, fill, blank, percent) == "%" + Format(s, fill, blank, percent)
  {
    var t := PercentSign + s;
    assert t[0] == t[1] == '%' && t[2..] == s;
    assert FillVerb[1] == BlankVerb[1] == PercentValueVerb[1] == '[';
    assert IsPrefix(PercentSign, t) && !StartsWithArgumentVerb(t);
  }

  /** The percent verbs print the number followed by a percent sign. */
  lemma PercentVerbsThen(s: string, fill: string, blank: string, percent: int)
    requires WellFormed(s)
    ensures WellFormed(PercentVerbs + s) && UsesArgument(PercentVerbs + s)
    ensures Format(PercentVerbs + s, fill, blank, percent) == Decimal(percent) + "%" + Format(s, fill, blank, percent)
  {
    PercentVerbsParts(s);
    PercentSignThen(s, fill, blank, percent);
    ArgumentVerbThen(PercentValueVerb, PercentSign + s, fill, blank, percent);
  }

  /** Rendering a compiled template shows the template with "{{bar}}" read
      as the bracketed bar and "{{percent}}" as the number and a percent
      sign, as long as the template itself has no '%'. It uses an argument
      exactly when the template held a placeholder. */
  lemma {:induction false} RenderCompiled(t: string, fill: string, blank: string, percent: int)
    requires '%' !in t
    ensures WellFormed(Substitute(t, BarVerbs, PercentVerbs))
    ensures UsesArgument(Substitute(t, BarVerbs, PercentVerbs))
        <==> Contains(t, BarPlaceholder) || Contains(t, PercentPlaceholder)
    ensures Format(Substitute(t, BarVerbs, PercentVerbs), fill, blank, percent)
         == Substitute(t, "[" + fill + blank + "]", Decimal(percent) + "%")
    decreases |t|
  {
    if t != [] {
      if IsPrefix(BarPlaceholder, t) {
        var rest := t[|BarPlaceholder|..];
        assert forall c :: c in rest ==> c in t;
        RenderCompiled(rest, fill, blank, percent);
        BarVerbsThen(Substitute(rest, BarVerbs, PercentVerbs), fill, blank, percent);
      } else if IsPrefix(PercentPlaceholder, t) {
        var rest := t[|PercentPlaceholder|..];
        assert forall c :: c in rest ==> c in t;
        RenderCompiled(rest, fill, blank, percent);
        PercentVerbsThen(Substitute(rest, BarVerbs, PercentVerbs), fill, blank, percent);
      } else {
        var rest := t[1..];
        assert forall c :: c in rest ==> c in t;
        assert t[0] in t;
        RenderCompiled(rest, fill, blank, percent);
        LiteralThen(t[0], Substitute(rest, BarVerbs, PercentVerbs), fill, blank, percent);
      }
    }
  }

  /** A template without '%' compiles to a well-formed format string, and
      drawBar prints it without the EXTRA report exactly when the template
      held a placeholder. */
  lemma CompiledIsWellFormed(t: string, fill: string, blank: string, percent: int)
    requires '%' !in t
    ensures WellFormed(CompileTemplate(t))
    ensures Sprintf(CompileTemplate(t), fill, blank, percent)
         == Substitute(t, "[" + fill + blank + "]", Decimal(percent) + "%")
          + (if Contains(t, BarPlaceholder) || Contains(t, PercentPlaceholder) then ""
             else Extra(fill, blank, percent))
  {
    CompileIsSubstitute(t);
    RenderCompiled(t, fill, blank, percent);
  }

  /** With the default template a line reads "[", the bar, "] ", the
      number and "%". */
  lemma FormatBasicTemplate(fill: string, blank: string, percent: int)
    ensures WellFormed("[%[1]s%[2]s] %[3]d%%") && UsesArgument("[%[1]s%[2]s] %[3]d%%")
    ensures Sprintf("[%[1]s%[2]s] %[3]d%%", fill, blank, percent)
         == "[" + fill + blank + "] " + Decimal(percent) + "%"
  {
    var t := BarVerbs + ([' '] + (PercentVerbs + []));
    BasicVerbs(t, fill, blank, percent);
    assert t == "[%[1]s%[2]s] %[3]d%%";
  }

  lemma BasicVerbs(t: string, fill: string, blank: string, percent: int)
    requires t == BarVerbs + ([' '] + (PercentVerbs + []))
    ensures WellFormed(t) && UsesArgument(t)
    ensures Sprintf(t, fill, blank, percent) == "[" + fill + blank + "] " + Decimal(percent) + "%"
  {
    var tail := PercentVerbs + [];
    PercentVerbsThen([], fill, blank, percent);
    LiteralThen(' ', tail, fill, blank, percent);
    BarVerbsThen([' '] + tail, fill, blank, percent);
    assert Format([], fill, blank, percent) == [];
    BasicRegroup(fill, blank, Decimal(percent));
  }

  lemma BasicRegroup(fill: string, blank: string, d: string)
    ensures "[" + fill + blank + "]" + ([' '] + (d + "%" + [])) == "[" + fill + blank + "] " + d + "%"
  {
  }

  /** How many fill cells the bar shows for `progress` out of `total` on a
      bar of `width` cells. drawBar computes it in float64 arithmetic,
      which is not modelled; a rule only has to give what that computation
      gives at the ends and stay within the bar in between. */
  ghost predicate FillRuleOk(cells: (int, int, int) -> int) {
    forall progress, total, width ::
      0 < total && 0 <= progress <= total && 0 <= width ==>
        && 0 <= cells(progress, total, width) <= width
        && (progress == 0 ==> cells(progress, total, width) == 0)
        && (progress == total ==> cells(progress, total, width) == width)
  }

  type FillRule = cells: (int, int, int) -> int | FillRuleOk(cells)
    witness (progress: int, total: int, width: int) => if progress == total then width else 0

  /** drawBar's percent, (progress*100)/total: the truncated quotient (Go's
      truncation agrees with Dafny's division for these non-negative
      operands). */
  function Percent(progress: int, total: int): (r: int)
    requires 0 < total && 0 <= progress <= total
    ensures r * total <= progress * 100 < (r + 1) * total
    ensures 0 <= r <= 100
    ensures r == 0 <==> progress * 100 < total
    ensures r == 100 <==> progress == total
  {
    var r := (progress * 100) / total;
    PercentFacts(progress, total, r);
    r
  }

  lemma PercentFacts(progress: int, total: int, r: int)
    requires 0 < total && 0 <= progress <= total
    requires r == (progress * 100) / total
    ensures r * total <= progress * 100 < (r + 1) * total
    ensures 0 <= r <= 100
    ensures r == 0 <==> progress * 100 < total
    ensures r == 100 <==> progress == total
  {
    var m := progress * 100;
    var rem := m % total;
    assert m == r * total + rem && 0 <= rem < total;
    assert (r + 1) * total == r * total + total;
    if r > 100 {
      MulLeft(101, r, total);
      assert false;
    }
    if r < 0 {
      MulLeft(r, -1, total);
      assert false;
    }
    if r >= 1 {
      MulLeft(1, r, total);
    }
    if progress < total {
      MulLeft(progress, total - 1, 100);
      if r == 100 {
        assert false;
      }
    } else if r < 100 {
      MulLeft(r, 99, total);
      assert false;
    }
  }

  lemma MulLeft(a: int, b: int, c: int)
    requires a <= b && 0 <= c
    ensures a * c <= b * c
  {
    assert b * c - a * c == (b - a) * c;
  }

  /** The fill cells drawBar shows. */
  function FilledCells(progress: int, total: int, width: int, cells: FillRule): (c: int)
    requires 0 < total && 0 <= progress <= total && 0 <= width
    ensures 0 <= c <= width
    ensures progress == 0 ==> c == 0
    ensures progress == total ==> c == width
  {
    cells(progress, total, width)
  }

  /** The bar segment: the fill cells of '=' then blank cells of ' ', always
      exactly `width` long. */
  function Segment(progress: int, total: int, width: int, cells: FillRule): (bar: (string, string))
    requires 0 < total && 0 <= progress <= total && 0 <= width
    ensures |bar.0| + |bar.1| == width
    ensures forall i :: 0 <= i < |bar.0| ==> bar.0[i] == '='
    ensures forall i :: 0 <= i < |bar.1| ==> bar.1[i] == ' '
    ensures progress == 0 ==> bar.0 == [] && bar.1 == Repeat(' ', width)
    ensures progress == total ==> bar.0 == Repeat('=', width) && bar.1 == []
  {
    var c := FilledCells(progress, total, width, cells);
    (Repeat('=', c), Repeat(' ', width - c))
  }

  /** The line drawBar formats before padding. */
  function Line(template: string, progress: int, total: int, width: int, cells: FillRule): (r: string)
    requires WellFormed(template)
    requires 0 < total && 0 <= progress <= total && 0 <= width
    ensures progress == 0 ==> r == Sprintf(template, "", Repeat(' ', width), 0)
    ensures progress == total ==> r == Sprintf(template, Repeat('=', width), "", 100)
  {
    var bar := Segment(progress, total, width, cells);
    Sprintf(template, bar.0, bar.1, Percent(progress, total))
  }

  /** drawBar right-pads a line shorter than the last one with spaces. */
  function Pad(line: string, maxLength: int): (r: string)
    ensures |r| == if |line| < maxLength then maxLength else |line|
    ensures r[..|line|] == line
    ensures forall i :: |line| <= i < |r| ==> r[i] == ' '
  {
    if |line| < maxLength then line + Repeat(' ', maxLength - |line|) else line
  }

  /** With the default template a frame reads "[", the fill cells, the
      blank cells, "] ", the percentage and "%". */
  lemma BasicLine(progress: int, total: int, width: int, cells: FillRule)
    requires 0 < total && 0 <= progress <= total && 0 <= width
    ensures WellFormed("[%[1]s%[2]s] %[3]d%%")
    ensures var c := FilledCells(progress, total, width, cells);
      Line("[%[1]s%[2]s] %[3]d%%", progress, total, width, cells)
        == "[" + Repeat('=', c) + Repeat(' ', width - c) + "] " + Decimal(Percent(progress, total)) + "%"
  {
    var bar := Segment(progress, total, width, cells);
    FormatBasicTemplate(bar.0, bar.1, Percent(progress, total));
  }

  /** With the default template the final frame reads "[==...==] 100%". */
  lemma CompletedBasicLine(total: int, width: int, cells: FillRule)
    requires 0 < total && 0 <= width
    ensures WellFormed("[%[1]s%[2]s] %[3]d%%")
    ensures Line("[%[1]s%[2]s] %[3]d%%", total, total, width, cells) == "[" + Repeat('=', width) + "] 100%"
  {
    var full := Repeat('=', width);
    var t := "[%[1]s%[2]s] %[3]d%%";
    FormatBasicTemplate(full, "", 100);
    DecimalHundred();
    FullFrame(full, Decimal(100));
  }

  lemma FullFrame(full: string, d: string)
    requires d == "100"
    ensures "[" + full + "" + "] " + d + "%" == "[" + full + "] 100%"
  {
  }

  lemma DecimalHundred()
    ensures Decimal(100) == "100"
  {
    assert Decimal(1) == "1";
    assert Decimal(10) == Decimal(1) + "0";
    assert Decimal(100) == Decimal(10) + "0";
  }
}
