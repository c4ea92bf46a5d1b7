# Throttled terminal progress bar

A model of the progress bar of the `eherve/pkg` Go packages and proofs about it.
The bar counts units of work towards a size and redraws one terminal line
`[=====     ] 50%`, ending each redraw with a carriage return. It redraws at most
once per interval. The call that reaches the size always draws the full bar;
unless printing that frame fails, it then prints a newline and starts over at zero. The code exists twice:

- `Bar` in `progress/progress.go`, whose setters return the bar so that calls chain;
- `Progress` in `console/progress.go`, whose setters return nothing and whose
  constructor keeps the default template uncompiled.

The project has five modules:

- `Text` (`text.dfy`): `strings.Repeat`, `strings.ReplaceAll` and fmt's `%d`, over strings as
  sequences of characters.
- `Render` (`render.dfy`): the template compiler of `SetTemplate` and how `fmt.Sprintf` reads
  the compiled verbs `%[1]s`, `%[2]s`, `%[3]d` and `%%`, including fmt's
  `%!(EXTRA …)` report when no verb picks an argument. Also the percent and bar-segment
  arithmetic of `drawBar` and its right-padding.
- `BarState` (`bar_state.dfy`): the bar's fields as a value, and what `drawBar`,
  `drawProgress`, `Clear`, `Tick` and `Write` do to them, as functions. The protocol's
  properties are lemmas about these functions. They are stated once for both bar types.
- `Progress` (`progress.dfy`): the class `Bar`. Its methods update its fields in place, and
  each is proved to leave `View()` equal to the matching `BarState` function of the old
  fields. `NewBar` and the default bar's run of two `Tick(50)` calls are here too.
- `Console` (`console_progress.dfy`): the class `Progress`, with the same methods as `Bar`
  and the non-chaining setters. `NewProgress`, and the consequence of its uncompiled template,
  are here too.

Inputs from outside the program are parameters:

- The clock is a parameter `now`, in nanoseconds. The zero `time.Time` is `None`.
- Standard output is the field `out`, one entry per print call.
- A failing `fmt.Print` is the flag `printFails`.
- The float64 fill computation of `drawBar` is a parameter `cells` of type `FillRule`. A rule
  gives 0 cells at progress 0 and `width` cells at the size, and stays within `0..width`
  in between.

Behaviour of the Go code worth noting:

- `Clear` resets the counter only. The last-draw time is reset by the completing `Tick`,
  not by `Clear` (`Clear`, `TickReachesSize`). Neither resets `maxLength`, so the next run is padded to the previous run's final frame (`NextRunPadded`).
- The completing `Tick` returns 0, the counter after the reset, and not the size.
- `Write` returns what `Tick` returns, not `len(b)` (`WriteReportsProgress`).
- `maxLength` becomes the length of the padded line. It is set before printing, so it
  changes even when the print fails.
- Only the interval `-1` turns throttling off. Any other negative interval is added to the
  last draw time like any other interval.

## Model

| member | source | states |
|---|---|---|
| Text.ReplaceAll | progress/progress.go:60-65 | strings.ReplaceAll with a non-empty pattern: leftmost, non-overlapping replacement; its guarantees are the three lemmas below |
| Text.Decimal | progress/progress.go:153 | `%d` of an integer: never empty, all digits for a non-negative value, a `-` then at least one digit for a negative one |
| Text.Repeat | progress/progress.go:151-152 | the segment has exactly `n` characters, each of them `c` |
| Text.ReplaceAllNoMatch | progress/progress.go:59-65 | a text in which the pattern does not occur comes back unchanged |
| Text.ReplaceAllRemoves | progress/progress.go:59-65 | after the rewrite the pattern no longer occurs when the replacement shares no character with it |
| Text.ReplaceAllKeepsAbsent | progress/progress.go:59-65 | the rewrite cannot create an occurrence of a word that shares no character with the replacement |
| Text.DecimalRoundTrip | progress/progress.go:153 | the text `%d` prints for a non-negative number is non-empty, made of digits only, reads back as that number, is a single digit below 10, and has no leading zero when longer |
| Render.CompileTemplate | progress/progress.go:59-65 | the template `SetTemplate` stores holds neither `{{bar}}` nor `{{percent}}` |
| Render.CompileIdempotent | progress/progress.go:58-67 | compiling a compiled template changes nothing, so `SetTemplate(Template())` is a no-op |
| Render.CompileIsSubstitute | progress/progress.go:58-67 | the two chained rewrites equal one left-to-right pass that replaces each placeholder by its verbs |
| Render.CompileBasicTemplate | progress/progress.go:168-173 | `{{bar}} {{percent}}` compiles to `[%[1]s%[2]s] %[3]d%%` |
| Render.Format | progress/progress.go:149-153 | fmt.Sprintf's reading of the four verbs of a compiled template; its effect is stated by the lemmas below (`PlainText`, `RenderCompiled`, `FormatBasicTemplate`) |
| Render.Sprintf | progress/progress.go:149-153 | the printed line starts with what the verbs print, and something follows it (fmt's EXTRA report) exactly when no verb picks an argument |
| Render.PlainText | console/progress.go:134-138 | a template without `%` is well formed and uses no argument, so it prints as itself followed by fmt's `%!(EXTRA …)` report |
| Render.Extra | progress/progress.go:149-153 | the report of unused arguments opens with `%!(EXTRA string=` and closes with `)` |
| Render.RenderCompiled | progress/progress.go:149-153 | a compiled template without `%` of its own prints as the original template with `{{bar}}` read as the bracketed bar and `{{percent}}` as the number and `%`; it uses an argument exactly when it held a placeholder |
| Render.CompiledIsWellFormed | progress/progress.go:58-67 | a template without `%` compiles to a well-formed format string; the line carries the EXTRA report exactly when the template held no placeholder |
| Render.FormatBasicTemplate | progress/progress.go:149-153 | with the default compiled template the line is `[`, fill, blank, `] `, the number and `%`, with no EXTRA report |
| Render.Percent | progress/progress.go:153 | the truncated quotient of `progress*100` by `total`: lies in 0..100 and is 100 exactly when `progress == total` |
| Render.FilledCells | progress/progress.go:147 | the fill count lies in `0..width`, is 0 at progress 0 and `width` at the size |
| Render.Segment | progress/progress.go:147-152 | fill and blank segments together are exactly `width` long, all `=` then all spaces; empty fill at 0, full fill at the size |
| Render.Pad | progress/progress.go:155-160 | the padded line has length `max(len(line), maxLength)`, starts with the line and continues with spaces |
| Render.BasicLine | progress/progress.go:146-153 | with the default template a frame is `[`, the fill cells, the blank cells, `] `, the percentage and `%` |
| Render.Line | progress/progress.go:147-153 | the frame at progress 0 is the template with no fill, `width` blanks and 0; at the size it is `width` fill cells, no blanks and 100 |
| Render.CompletedBasicLine | progress/progress.go:112 | with the default template the final frame is `[` + `width` times `=` + `] 100%` |
| BarState.Emitted | progress/progress.go:155-163 | the printed text is `max(len(line), maxLength)` long plus `\r`, starts with the line, and is the line and `\r` alone when the line is at least as long as every earlier one |
| BarState.RenderDue | progress/progress.go:131-136 | the gate is open when nothing was drawn yet, when the interval is `-1`, or when `now` is not before the last draw plus the interval, and closed when `now` is before it with any other interval |
| BarState.RenderDueStaysDue | progress/progress.go:131-136 | once the gate is open it stays open at any later time |
| BarState.DrawBar | progress/progress.go:146-165 | fails exactly when the print fails; configuration, counter and last-draw time unchanged; `maxLength` never decreases and covers the new line; a successful draw appends the padded line and `\r`, a failed one appends nothing |
| BarState.DrawProgress | progress/progress.go:130-144 | errs exactly when the gate opens and the print fails; a closed gate leaves the whole state unchanged; configuration and counter unchanged |
| BarState.Clear | progress/progress.go:123-128 | counter back to 0, a newline appended exactly when asked; `maxLength` and last-draw time unchanged |
| BarState.Tick | progress/progress.go:105-119 | adds `n` and keeps the configuration; the counter ends at 0 after a successful completing call and at old+n otherwise; returns the counter, or 0 with an error; no error without a print failure; `maxLength` never decreases |
| BarState.TickError | progress/progress.go:105-114 | an error comes back exactly when a draw is attempted and its print fails; then Tick returns 0, the counter keeps old+n, and nothing is printed or recorded as drawn |
| BarState.TickBelowSize | progress/progress.go:105-119 | a non-completing Tick returns old+n; a closed gate changes only the counter; an open gate sets `maxLength` to the emitted length and, on success, prints the padded line and records `now` |
| BarState.TickReachesSize | progress/progress.go:111-118 | the completing Tick draws regardless of the gate, prints the 100% line and then `\n`, leaves counter 0 and last-draw unset, and returns 0 |
| BarState.DrawPads | progress/progress.go:155-163 | what follows the line in the printed text, up to the `\r`, is spaces; the new `maxLength` is the printed length without `\r` |
| BarState.NextRunPadded | progress/progress.go:111-118 | after the completing Tick `maxLength` is the length of the 100% frame, every frame of the next run is printed at least that long, and the next run's first draw is due at any time |
| BarState.ThrottleSkipsQuickTick | progress/progress.go:130-136 | with a one-second interval, a non-completing Tick 100ms after a draw prints nothing and still returns the new count |
| BarState.Write | progress/progress.go:96-101 | keeps the configuration, moves the counter as `Tick(len(b))` does, and returns the counter or 0 with an error |
| BarState.TickAfterIntervalDraws | progress/progress.go:130-144 | a Tick short of the size that comes once the interval has passed since the last draw prints the padded line, records `now` and returns the new count |
| BarState.WriteReportsProgress | progress/progress.go:96-101 | `Write(b)` returns the bar's new count, not `len(b)` |
| BarState.TickEach | ziptool/ziptool.go:103-113 | one `Tick(1)` per item yields one return value per item and keeps the configuration |
| BarState.FirstTick | ziptool/ziptool.go:103-113 | a `Tick(1)` short of the size returns the new count and leaves the rest of the run to a bar one further on |
| BarState.LastTick | ziptool/ziptool.go:103-113 | the `Tick(1)` that reaches the size returns 0 and leaves counter 0, last-draw unset, and a newline last |
| BarState.TickEachToSize | ziptool/ziptool.go:103-113 | `Tick(1)` repeated up to the size returns p+1, p+2, …, then 0 on the last call, which leaves counter 0, last-draw unset, and a final newline |
| BarState.TickSeq | progress/progress.go:96-119 | successive `Tick(n)` (or `Write(b)` with `len(b) == n`) calls without print failures: one return per call, the configuration kept, and the last return equal to the final counter |
| BarState.TickSeqToSize | progress/progress.go:105-119 | positive counts that add up exactly to what is left of the size: every call before the last returns the running total, strictly between 0 and the size; the last returns 0 and leaves counter 0, last-draw unset and a newline last |
| BarState.TickSeqReturns | progress/progress.go:105-110 | the calls before the last return the running totals and stay below the size |
| BarState.TickSeqCompletes | progress/progress.go:111-118 | the last call completes: counter 0, last-draw unset, a newline last |
| BarState.FirstStep | progress/progress.go:105-110 | a positive count that leaves something of the size to go returns the running total and keeps the configuration |
| BarState.LastStep | progress/progress.go:111-118 | a count that reaches the size returns 0 and completes the run |
| BarState.ArchiveRun | ziptool/ziptool.go:103-113 | after `SetSize(N)` on a bar at 0, N calls of `Tick(1)` return 1, …, N-1, complete exactly on the N-th call with 0, and leave the counter at 0, the last-draw time unset and a newline last |
| Progress.Bar.constructor | progress/progress.go:169 | `&Bar{}`: every field is zero |
| Progress.Bar.SetSize | progress/progress.go:47-50 | returns the same bar with only the size changed |
| Progress.Bar.SetTemplate | progress/progress.go:58-67 | returns the same bar with only the template changed, to its compiled form, which holds no placeholder |
| Progress.Bar.SetWidth | progress/progress.go:75-78 | returns the same bar with only the width changed |
| Progress.Bar.SetInterval | progress/progress.go:86-89 | returns the same bar with only the interval changed |
| Progress.Bar.Write | progress/progress.go:96-101 | the new fields and results are those of `BarState.Write` |
| Progress.Bar.Tick | progress/progress.go:105-119 | the new fields and results are those of `BarState.Tick` |
| Progress.Bar.Clear | progress/progress.go:123-128 | counter 0 and a newline printed when asked; nothing else changes |
| Progress.Bar.DrawProgress | progress/progress.go:130-144 | the new fields and the error are those of `BarState.DrawProgress` |
| Progress.Bar.DrawBar | progress/progress.go:146-165 | the new fields and the error are those of `BarState.DrawBar` |
| Progress.NewBar | progress/progress.go:168-173 | a fresh bar with the compiled default template, width 10, a one-second interval and all else zero |
| Progress.DefaultBarRun | progress/progress.go:105-119 | the default bar sized 100: `Tick(50)` returns 50 and prints `[` fill, blank `] 50%`; the next `Tick(50)` returns 0 after printing `[==========] 100%` and a newline, leaving counter 0 and last-draw unset |
| Progress.HalfwayTick | progress/progress.go:105-110 | the first `Tick(50)` of the default bar sized 100 draws at once, returns 50 and leaves `maxLength` 16 |
| Progress.FinalTick | progress/progress.go:111-118 | the completing `Tick(50)` prints `[==========] 100%` then a newline and returns 0 |
| Console.Progress.constructor | console/progress.go:27 | the composite literal: the given template, width and interval, all else zero |
| Console.Progress.SetSize | console/progress.go:36-38 | only the size changes |
| Console.Progress.SetTemplate | console/progress.go:46-54 | only the template changes, to its compiled form, which holds no placeholder |
| Console.Progress.SetWidth | console/progress.go:62-64 | only the width changes |
| Console.Progress.SetInterval | console/progress.go:72-74 | only the interval changes |
| Console.Progress.Write | console/progress.go:81-86 | the new fields and results are those of `BarState.Write` |
| Console.Progress.Tick | console/progress.go:90-104 | the new fields and results are those of `BarState.Tick` |
| Console.Progress.Clear | console/progress.go:108-113 | counter 0 and a newline printed when asked; nothing else changes |
| Console.Progress.DrawProgress | console/progress.go:115-129 | the new fields and the error are those of `BarState.DrawProgress` |
| Console.Progress.DrawBar | console/progress.go:131-150 | the new fields and the error are those of `BarState.DrawBar` |
| Console.NewProgress | console/progress.go:26-28 | a fresh bar holding the raw `{{bar}} {{percent}}`, width 10, a one-second interval and all else zero |
| Console.RawTemplateLine | console/progress.go:134-138 | with the raw default template the line is the placeholders themselves followed by the EXTRA report of the fill, blank and percent |
| Console.RawTemplateEmitted | console/progress.go:131-148 | the first draw of a `NewProgress` bar sized 100, at 50, prints the placeholders, the EXTRA report and `\r` |
| Console.RawTemplateFirstTick | console/progress.go:131-148 | a `NewProgress` bar sized 100 prints `{{bar}} {{percent}}%!(EXTRA string=…, string=…, int64=50)` on its first `Tick(50)` |
| Console.NewCompiledProgress | console/progress.go:26-28 | the corrected constructor: compiled default template, as `NewBar`, which uses an argument and so prints no EXTRA report |

## Left out

- The float64 fill computation `int64(float64(progress)/float64(total)*float64(width))` is the parameter `cells`. The model claims only its values at the ends and its bounds, not that it equals an integer floor.
- fmt's handling of a `%` that opens none of the verbs `%[1]s`, `%[2]s`, `%[3]d`, `%%` is not modelled. Such templates are excluded by `WellFormed`.
- `int64` and `int` overflow are not modelled: integers are unbounded.
- String lengths are counted in characters. Go counts bytes, which is the same for ASCII templates only.
- The real clock: both `time.Now()` reads of `drawProgress` are one parameter `now`.
- Standard output is a log. A failed `fmt.Print` of a frame is modelled as writing nothing, and a partial write is not modelled.
- BarState.Clear: a failing `fmt.Printf("\n")` in `Clear` is not modelled; the newline is always logged, since Go ignores that print's error.
- The getters (`Size`, `Template`, `Width`, `Interval`, `Progress`) each read one field. `View()` exposes all fields, so they are not modelled separately.
- The `Progress` interface of `progress/progress.go` is a declaration without behaviour.
- The zip, HTTP, prompt and environment helpers are I/O wrappers outside this model; only the calling pattern of `ziptool/ziptool.go` is modelled (`ArchiveRun`).
- Concurrency: the bar has a single writer and no synchronisation.
- BarState.Tick: requires a positive size, `0 <= progress + n <= size` and a non-negative width. A zero size divides by zero, and a fill count above the width makes `strings.Repeat` panic on a negative count. The precondition also excludes overshoots that do not panic: a percentage above 100 with a fill still within the width (size 100, width 10, progress 105 prints `[==========] 105%`), a width of 0, and an overshooting Tick whose draw the throttle gate skips, which prints nothing and returns old+n. The lower bound likewise excludes a negative count that Go draws without a panic: size 100, width 10, progress 0, `Tick(-1)` gives a fill of `int64(-0.1) = 0` and prints `[          ] -1%`.
- Progress.Bar.Tick: same precondition as `BarState.Tick`.
- Console.Progress.Tick: same precondition as `BarState.Tick`.

## Findings

| source | as written | input that shows it | evidently intended | confidence | as-written member | corrected member |
|---|---|---|---|---|---|---|
| console/progress.go:26-28 | `NewProgress` stores `{{bar}} {{percent}}` without compiling it, unlike `NewBar` | `NewProgress()`, `SetSize(100)`, `Tick(50)` prints `{{bar}} {{percent}}%!(EXTRA string======, string=     , int64=50)` (fill as the float rule gives it) | compile the default template as `NewBar` does, printing `[=====     ] 50%` | medium, not executed | Console.RawTemplateFirstTick | Console.NewCompiledProgress |
