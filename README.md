# Portfolio site behaviour, modelled in Dafny

This project models the logic of a React portfolio site. The site is mostly
presentation. Its logic lives in small, timer-driven state machines and pure
helpers, and each of them gets one Dafny module:

- `AnimatedText`: a text that is typed out once the element is seen;
- `TypewriterText`: a text that is typed out after a start delay;
- `ModernLoader`: the percentage loader and the "BHAVYA KAPOOR" typewriter loader;
- `AlternatingText`: a rotator that cycles through a list of texts;
- `GlitchText`: a ten-tick character scrambler;
- `TextReveal`: the word split and per-word scroll ranges;
- `ParticleTrail`: the bounded mouse trail;
- `HoverInfo`: the throttled tooltip of personal facts;
- `FloatingNav`: the floating navigation bar and its active-section scan;
- `DraggableIcons`: the "design arsenal" placement and dragging;
- `Projects`: the endless project carousel and its modal;
- `KeyboardShortcuts`: the keyboard shortcuts.

Each stateful component has the same three parts:

- a `datatype State` holding the React state, the closure variables and the pending timers;
- pure transition functions, one per callback (timer, interval, observer, event handler), each with a contract and usually an invariant `Inv` it preserves;
- a `class` whose fields are those variables. Its methods update the fields in place and are proved to produce exactly `Snapshot() == F(old(Snapshot()), …)` while keeping `Valid()`.

Lemmas about iterated runs give the promised schedules: prefixes revealed tick by tick, 50 ticks to 100 %, a full cycle of the rotator, ten glitch ticks, and throttled shows.

Timers, intervals, the intersection observer and animation frames are explicit calls, one per callback that fires. The following are parameters of the call that uses them:

- `Math.random()`;
- `Date.now()`;
- the DOM queries: `elementFromPoint(...).closest('[data-arsenal]')`, `getBoundingClientRect`, `getElementById(...).offsetTop`, and the event target's element type.

`util.dfy` holds `Option`, `Min`/`Max` and three facts about Euclidean division.

## Model

| member | source | states |
|---|---|---|
| AnimatedText.DefaultConfig | src/components/ui/animated-text.tsx:16-19 | defaults: delay 0 s, 15 characters per second, cursor shown, cursor not kept after completion |
| AnimatedText.TickPeriodMs | src/components/ui/animated-text.tsx:50 | the interval period is positive and period · speed = 1000 ms, for a positive speed |
| AnimatedText.InitialInv | src/components/ui/animated-text.tsx:21-24 | the initial state satisfies the invariant, has not started, and renders no cursor |
| AnimatedText.Intersect | src/components/ui/animated-text.tsx:31-32 | only an intersecting entry while hasStarted is false starts the reveal; hasStarted is never reset; the invariant is kept. The flag read is the current one, not the one the closure captured (see Left out) |
| AnimatedText.BatchStarts | src/components/ui/animated-text.tsx:29-32 | the number of reveals a batch starts: none when the captured hasStarted is true, otherwise exactly the number of intersecting entries in the batch |
| AnimatedText.DoubleStart | src/components/ui/animated-text.tsx:29-32 | two intersecting entries seen before the effect re-runs start two reveals in the source, where Intersect starts one |
| AnimatedText.StartTimer | src/components/ui/animated-text.tsx:34-36 | the start timeout turns the cursor on and starts the interval with its counter at 0 |
| AnimatedText.IntervalTick | src/components/ui/animated-text.tsx:38-49 | a tick with counter i ≤ \|text\| shows text[..i] and bumps i; the tick after that completes with the text unchanged and schedules the hide unless the cursor is kept; the shown text only grows, by one character per tick after the first; hasStarted and the blinking-cursor flag are untouched, and so is a pending hide while typing |
| AnimatedText.CursorRendered | src/components/ui/animated-text.tsx:82 | the cursor is rendered only with showCursor set and the blinking flag on, and whenever both hold |
| AnimatedText.HideTimer | src/components/ui/animated-text.tsx:47 | the hide timeout turns the cursor off and changes nothing else |
| AnimatedText.Step | src/components/ui/animated-text.tsx:27-60 | every callback keeps the invariant: the shown text is a prefix of the text, complete implies the whole text is shown, a kept cursor stays on |
| AnimatedText.TicksFrom | src/components/ui/animated-text.tsx:36-44 | from counter k, n ticks show text[..k+n-1] and are not complete while k + n ≤ \|text\| + 1; after that the reveal is complete with the whole text |
| AnimatedText.RevealSchedule | src/components/ui/animated-text.tsx:36-44 | from mount, tick t (1 ≤ t ≤ \|text\| + 1) shows text[..t-1], so the lengths 0, 1, …, \|text\| appear in order; tick \|text\| + 2 completes with the whole text |
| AnimatedText.NoRevealBeforeIntersection | src/components/ui/animated-text.tsx:31 | a trace with no intersecting entry leaves the component in its initial state |
| AnimatedText.RestartProof | src/components/ui/animated-text.tsx:31-32 | in the model, once started no trace resets hasStarted or shortens the shown text; the source's double start before the effect re-runs is outside it (see Left out) |
| AnimatedText.CompleteIsFinal | src/components/ui/animated-text.tsx:42-48 | after completion every trace keeps the reveal complete with the whole text; with keepCursorAfterComplete the cursor stays on and is rendered whenever showCursor is set |
| AnimatedText.CursorHiddenAfterComplete | src/components/ui/animated-text.tsx:44-48 | without keepCursorAfterComplete the completing tick schedules the hide, after which the cursor is not rendered |
| AnimatedText.Animator.constructor | src/components/ui/animated-text.tsx:21-24 | a mounted instance starts in the initial state |
| AnimatedText.Animator.OnIntersection | src/components/ui/animated-text.tsx:31-32 | updates the fields exactly as Intersect, keeping the invariant |
| AnimatedText.Animator.OnStartTimer | src/components/ui/animated-text.tsx:34-36 | updates the fields exactly as StartTimer, keeping the invariant |
| AnimatedText.Animator.OnIntervalTick | src/components/ui/animated-text.tsx:38-49 | updates the fields exactly as IntervalTick, keeping the invariant |
| AnimatedText.Animator.OnHideTimer | src/components/ui/animated-text.tsx:47 | updates the fields exactly as HideTimer, keeping the invariant |
| TypewriterText.DefaultConfig | src/components/ui/typewriter-text.tsx:13-17 | defaults: 50 ms per character, cursor shown, no start delay |
| TypewriterText.Start | src/components/ui/typewriter-text.tsx:23-26 | the start timeout sets hasStarted and touches nothing else |
| TypewriterText.Step | src/components/ui/typewriter-text.tsx:31-42 | before the start, or with the whole text shown, nothing happens; otherwise exactly text[currentIndex] is appended and currentIndex grows by 1; displayedText == text[..currentIndex] is kept |
| TypewriterText.CursorRendered | src/components/ui/typewriter-text.tsx:47 | the cursor is rendered exactly when showCursor is set, whatever the state |
| TypewriterText.StepsFrom | src/components/ui/typewriter-text.tsx:34-37 | after the start, n timeouts show exactly the first min(currentIndex + n, \|text\|) characters |
| TypewriterText.Reveal | src/components/ui/typewriter-text.tsx:23-42 | from mount, the start timeout and n character timeouts show text[..min(n, \|text\|)] |
| TypewriterText.NothingBeforeStart | src/components/ui/typewriter-text.tsx:32 | before the start timeout no number of timeouts changes the state |
| TypewriterText.FinalState | src/components/ui/typewriter-text.tsx:34 | with the whole text shown no timeout is scheduled and the state is final |
| TypewriterText.Typewriter.constructor | src/components/ui/typewriter-text.tsx:19-21 | a mounted instance starts empty and not started |
| TypewriterText.Typewriter.OnStartTimer | src/components/ui/typewriter-text.tsx:24-26 | updates the fields exactly as Start |
| TypewriterText.Typewriter.OnStepTimer | src/components/ui/typewriter-text.tsx:35-38 | updates the fields exactly as Step, keeping the prefix invariant |
| ModernLoader.Mount | src/components/ui/modern-loader.tsx:10-14 | progress starts at 0 and the interval runs only for a visible loader |
| ModernLoader.ProgressTick | src/components/ui/modern-loader.tsx:15-31 | below 100 a tick adds 2; at 100 the interval stops and the value stays 100; onComplete is scheduled when a changed value reaches 100; progress stays even and in [0, 100] |
| ModernLoader.ProgressSchedule | src/components/ui/modern-loader.tsx:12-31 | from a visible mount n ticks give min(2n, 100); exactly 50 increments reach 100; the 51st tick clears the interval; onComplete is scheduled exactly once, at tick 50, for an onComplete prop that stays the same function |
| ModernLoader.ProgressFrom | src/components/ui/modern-loader.tsx:15-21 | from any running value, n ticks give min(progress + 2n, 100) and the interval is still running while at most 50 ticks have happened in all |
| ModernLoader.ProgressStaysFull | src/components/ui/modern-loader.tsx:16-19 | once at 100 progress stays 100 and onComplete is not scheduled again while the onComplete prop stays the same function |
| ModernLoader.HiddenLoaderStays | src/components/ui/modern-loader.tsx:13 | a hidden loader never moves |
| ModernLoader.Substring0 | src/components/ui/modern-loader.tsx:154 | substring(0, k) is the prefix of length min(k, \|s\|) |
| ModernLoader.TypingMount | src/components/ui/modern-loader.tsx:147-153 | the typewriter loader starts with empty text, index 0, and runs only when visible |
| ModernLoader.TypingTick | src/components/ui/modern-loader.tsx:153-159 | a tick shows substring(0, index) and bumps index; once index exceeds the length, the interval stops and onComplete is scheduled; the shown text is the prefix of length index - 1 |
| ModernLoader.TypingFrom | src/components/ui/modern-loader.tsx:152-160 | n ticks bring the index to min(index + n, \|name\| + 1) and show the matching prefix |
| ModernLoader.NameSchedule | src/components/ui/modern-loader.tsx:148-158 | tick k shows the first k - 1 letters of the 13-letter name, so the lengths 0..13 appear in order; onComplete is scheduled at tick 14 and not before |
| ModernLoader.ProgressLoader.constructor | src/components/ui/modern-loader.tsx:10-14 | a mounted loader starts as Mount |
| ModernLoader.ProgressLoader.OnIntervalTick | src/components/ui/modern-loader.tsx:15-31 | updates the fields exactly as ProgressTick, keeping progress even and in [0, 100] |
| ModernLoader.NameTypewriter.constructor | src/components/ui/modern-loader.tsx:147-153 | a mounted typewriter loader starts as TypingMount |
| ModernLoader.NameTypewriter.OnIntervalTick | src/components/ui/modern-loader.tsx:153-159 | updates the fields exactly as TypingTick, keeping the prefix invariant |
| AlternatingText.DefaultConfig | src/components/ui/alternating-text.tsx:11-15 | defaults: no delay, 3000 ms between switches |
| AlternatingText.Next | src/components/ui/alternating-text.tsx:34 | (prev + 1) % n is an index below n; it advances by one and wraps from the last index to 0 |
| AlternatingText.Reveal | src/components/ui/alternating-text.tsx:21-24 | the delay timeout makes the text visible and keeps the index |
| AlternatingText.Switch | src/components/ui/alternating-text.tsx:30-35 | while hidden nothing changes; while visible the index becomes Next(index); the index stays in range |
| AlternatingText.SwitchesAdvance | src/components/ui/alternating-text.tsx:33-34 | while visible, k switches move the index to (index + k) mod \|texts\| |
| AlternatingText.FullCycle | src/components/ui/alternating-text.tsx:34 | \|texts\| switches return to the starting text |
| AlternatingText.NoSwitchWhileHidden | src/components/ui/alternating-text.tsx:31 | before the delay timeout no number of switches changes anything |
| AlternatingText.Render | src/components/ui/alternating-text.tsx:40-58 | while hidden texts[0] is rendered at opacity 0; afterwards texts[currentTextIndex], one of the texts, at opacity 1 |
| AlternatingText.Rotator.constructor | src/components/ui/alternating-text.tsx:17-18 | a mounted rotator starts at index 0, hidden |
| AlternatingText.Rotator.OnDelayTimeout | src/components/ui/alternating-text.tsx:22-24 | updates the fields exactly as Reveal, keeping the index in range |
| AlternatingText.Rotator.OnSwitchInterval | src/components/ui/alternating-text.tsx:33-35 | updates the fields exactly as Switch, keeping the index in range |
| GlitchText.PickIndex | src/components/ui/glitch-text.tsx:28 | the picked glitch-character index lies in [0, \|glitchChars\|) |
| GlitchText.ScrambleChar | src/components/ui/glitch-text.tsx:26-31 | with chance below 0.3 a character of glitchChars, otherwise text[index], or the current character where text is shorter |
| GlitchText.Scramble | src/components/ui/glitch-text.tsx:25-32 | the map keeps the length, and every character is a glitch character or the original one |
| GlitchText.Mount | src/components/ui/glitch-text.tsx:11-12 | initially glitchText == text and no glitch runs |
| GlitchText.Trigger | src/components/ui/glitch-text.tsx:16-24 | a no-op while glitching; otherwise starts the interval with iterations 0 |
| GlitchText.Tick | src/components/ui/glitch-text.tsx:24-41 | a tick scrambles and counts one iteration; the tenth restores the text and ends the glitch; the length is kept |
| GlitchText.GlitchRun | src/components/ui/glitch-text.tsx:21-41 | a running glitch stays glitching while fewer than 10 iterations are done and, at 10, shows the original text and is over |
| GlitchText.TenTicksRestore | src/components/ui/glitch-text.tsx:16-41 | from a fresh trigger, exactly ten ticks restore the text whatever is drawn |
| GlitchText.Glitcher.constructor | src/components/ui/glitch-text.tsx:11-12 | a mounted instance starts as Mount |
| GlitchText.Glitcher.TriggerGlitch | src/components/ui/glitch-text.tsx:16-21 | updates the fields exactly as Trigger |
| GlitchText.Glitcher.OnIntervalTick | src/components/ui/glitch-text.tsx:24-41 | updates the fields exactly as Tick, keeping the length and the glitching flag consistent |
| TextReveal.Split | src/components/ui/text-reveal.tsx:16 | split(" ") always gives at least one word |
| TextReveal.JoinSplit | src/components/ui/text-reveal.tsx:16 | joining the words with single spaces gives back the text |
| TextReveal.SplitShape | src/components/ui/text-reveal.tsx:16 | there is one more word than there are spaces, and no word contains a space |
| TextReveal.SplitPrefix | src/components/ui/text-reveal.tsx:16 | a space-free prefix is glued to the first word |
| TextReveal.SplitJoin | src/components/ui/text-reveal.tsx:16 | splitting the join of space-free words gives the words back |
| TextReveal.WordRange | src/components/ui/text-reveal.tsx:22-23 | word i of n gets [i/n, (i+1)/n], of width 1/n, with 0 ≤ start < end ≤ 1 |
| TextReveal.Ranges | src/components/ui/text-reveal.tsx:21-23 | one range per word |
| TextReveal.RangesPartition | src/components/ui/text-reveal.tsx:21-23 | the ranges partition [0, 1]: the first starts at 0, the last ends at 1, each ends where the next starts, all of width 1/n |
| ParticleTrail.KeepLast | src/components/ui/particle-trail.tsx:35 | slice(-k): for k > 0 the last min(k, \|s\|) elements; for k = 0 the whole list, as slice(-0) keeps everything |
| ParticleTrail.Append | src/components/ui/particle-trail.tsx:35 | after an add there are at most 21 particles; the new one is last, after the last min(20, \|prev\|) old ones in order |
| ParticleTrail.Without | src/components/ui/particle-trail.tsx:39 | the filter never lengthens the list |
| ParticleTrail.WithoutMembers | src/components/ui/particle-trail.tsx:39 | the filter keeps exactly the particles whose id differs |
| ParticleTrail.WithoutAbsent | src/components/ui/particle-trail.tsx:39 | filtering an id that is absent leaves the list unchanged |
| ParticleTrail.WithoutOnly | src/components/ui/particle-trail.tsx:39 | when only particle k has its id, the filter drops exactly it and keeps the rest in order |
| ParticleTrail.WithoutPresent | src/components/ui/particle-trail.tsx:38-40 | with increasing ids, removal drops exactly the particle with the given id and keeps the others in order |
| ParticleTrail.MouseMove | src/components/ui/particle-trail.tsx:19-40 | over the arsenal nothing changes; elsewhere a particle with the next counter id is appended and its removal scheduled |
| ParticleTrail.AppendIncreasing | src/components/ui/particle-trail.tsx:27-35 | appending a particle with a larger id keeps ids strictly increasing |
| ParticleTrail.PushIncreasing | src/components/ui/particle-trail.tsx:27-38 | scheduling the removal of a larger id keeps the pending ids increasing |
| ParticleTrail.KeptFromOld | src/components/ui/particle-trail.tsx:35 | every particle after an add is the new one or one from before |
| ParticleTrail.MouseMoveInv | src/components/ui/particle-trail.tsx:17-40 | a move keeps ids unique and increasing, each below the counter and with its removal pending |
| ParticleTrail.Expire | src/components/ui/particle-trail.tsx:38-40 | the oldest removal timeout filters its id out and is consumed |
| ParticleTrail.RemoveAtIncreasing | src/components/ui/particle-trail.tsx:39 | dropping one particle keeps ids increasing |
| ParticleTrail.WithoutIncreasing | src/components/ui/particle-trail.tsx:39 | filtering keeps ids increasing |
| ParticleTrail.ExpireInv | src/components/ui/particle-trail.tsx:38-40 | a removal timeout keeps the invariant |
| ParticleTrail.AddBound | src/components/ui/particle-trail.tsx:35 | after any add the list holds at most 21 particles |
| ParticleTrail.ExpireEvicted | src/components/ui/particle-trail.tsx:35-39 | the removal of a particle already evicted by slice(-20) leaves the list unchanged |
| ParticleTrail.Trail.constructor | src/components/ui/particle-trail.tsx:14-17 | a mounted trail starts empty with the counter at 0 |
| ParticleTrail.Trail.HandleMouseMove | src/components/ui/particle-trail.tsx:19-41 | updates the fields exactly as MouseMove, keeping the invariant |
| ParticleTrail.Trail.OnRemovalTimeout | src/components/ui/particle-trail.tsx:38-40 | updates the fields exactly as Expire, keeping the invariant |
| HoverInfo.PickIndex | src/components/ui/hover-info.tsx:88 | the random pick is a valid index into the eight personal facts |
| HoverInfo.Effect | src/components/ui/hover-info.tsx:77-97 | in the arsenal the item is cleared and nothing else changes; otherwise, when more than 2500 ms have passed, a random item is shown, lastShowTime becomes now and a hide at now + 2000 is scheduled; else nothing changes |
| HoverInfo.Move | src/components/ui/hover-info.tsx:70-97 | after a move the arsenal flag is the new one; in the arsenal no item remains; lastShowTime only changes to now, and only after more than 2500 ms |
| HoverInfo.Mount | src/components/ui/hover-info.tsx:65-97 | on mount outside the arsenal an item is shown at once, with one hide scheduled; in the arsenal nothing is shown |
| HoverInfo.Hide | src/components/ui/hover-info.tsx:93-95 | the oldest hide timeout clears the item and changes nothing else |
| HoverInfo.ShowsAreThrottled | src/components/ui/hover-info.tsx:87-90 | along any trace, whatever the clock does, each show is more than 2500 ms after the previous one |
| HoverInfo.EnteringArsenalUsesWindow | src/components/ui/hover-info.tsx:70-97 | entering the arsenal when a show is allowed still moves lastShowTime, while nothing is left shown |
| HoverInfo.Render | src/components/ui/hover-info.tsx:99-116 | nothing is rendered in the arsenal or without an item; otherwise the tooltip shows exactly the current item at left = min(x + 20, innerWidth - 250) and top = min(y - 10, innerHeight - 80), so left ≤ innerWidth - 250 and top ≤ innerHeight - 80 |
| HoverInfo.Tooltips.constructor | src/components/ui/hover-info.tsx:65-97 | a mounted tooltip is in the state Mount gives |
| HoverInfo.Tooltips.RunEffect | src/components/ui/hover-info.tsx:77-97 | updates the fields exactly as Effect |
| HoverInfo.Tooltips.OnMouseMove | src/components/ui/hover-info.tsx:70-97 | updates the fields exactly as Move |
| HoverInfo.Tooltips.OnHideTimeout | src/components/ui/hover-info.tsx:93-95 | updates the fields exactly as Hide |
| FloatingNav.LastQualifying | src/components/ui/floating-nav.tsx:24-30 | the result is the highest index whose element exists at or above the scroll line; None when no index qualifies |
| FloatingNav.Qualifies | src/components/ui/floating-nav.tsx:26 | a section whose element is missing never qualifies |
| FloatingNav.ScanActive | src/components/ui/floating-nav.tsx:24-30 | the backward loop with break finds exactly LastQualifying |
| FloatingNav.Scroll | src/components/ui/floating-nav.tsx:17-31 | visible exactly when scrollY > 100; the active section becomes the id of the last qualifying section, or is kept when none qualifies; it stays one of the four ids |
| FloatingNav.ScanMonotone | src/components/ui/floating-nav.tsx:22-29 | with fixed offsets, a larger scrollY never selects an earlier section |
| FloatingNav.NavIdsDistinct | src/components/ui/floating-nav.tsx:9-14 | the four nav ids are pairwise distinct |
| FloatingNav.ActiveFlags | src/components/ui/floating-nav.tsx:55-57 | button i is active exactly when its id is the active section |
| FloatingNav.ExactlyOneActive | src/components/ui/floating-nav.tsx:9-14 | in a reachable state exactly one button is active |
| FloatingNav.Nav.constructor | src/components/ui/floating-nav.tsx:6-7 | the nav starts hidden with "home" active |
| FloatingNav.Nav.HandleScroll | src/components/ui/floating-nav.tsx:17-31 | updates the fields exactly as Scroll |
| KeyboardShortcuts.LowerChar | src/components/ui/keyboard-shortcuts.tsx:11 | an ASCII capital maps to its lower case, and every other character is kept |
| KeyboardShortcuts.Lower | src/components/ui/keyboard-shortcuts.tsx:11 | lower-casing keeps the length |
| KeyboardShortcuts.LowerIdempotent | src/components/ui/keyboard-shortcuts.tsx:11 | lower-casing twice is lower-casing once |
| KeyboardShortcuts.Dispatch | src/components/ui/keyboard-shortcuts.tsx:5-27 | every section a key scrolls to is one of the four nav sections |
| KeyboardShortcuts.TypingIsIgnored | src/components/ui/keyboard-shortcuts.tsx:7-9 | a key typed into an input or a textarea causes no action |
| KeyboardShortcuts.CaseInsensitive | src/components/ui/keyboard-shortcuts.tsx:11 | a key and its lower case act alike |
| KeyboardShortcuts.Shortcuts | src/components/ui/keyboard-shortcuts.tsx:11-27 | h, a, p, c scroll to home, about, projects, contact and escape to the top, each if and only if the lower-cased key is that one; every other key does nothing |
| KeyboardShortcuts.Examples | src/components/ui/keyboard-shortcuts.tsx:11-26 | "H" scrolls home, "Escape" scrolls to the top, "Enter" does nothing |
| DraggableIcons.Candidate | src/components/ui/draggable-icons.tsx:61-62 | a random candidate lies within the 20 px margin when the container leaves room for it |
| DraggableIcons.FloorDiv | src/components/ui/draggable-icons.tsx:69 | Math.floor of an integer quotient, for either sign of the divisor |
| DraggableIcons.JsRem | src/components/ui/draggable-icons.tsx:70 | the remainder of a non-negative index is below the divisor's magnitude |
| DraggableIcons.Grid | src/components/ui/draggable-icons.tsx:67-73 | the grid puts app i at (20 + (i mod cols)·68, 20 + (i div cols)·68); with no column the position is NaN; with a negative column count (width < 40) it is (20 + JS (i % cols)·68, 20 + floor(i / cols)·68), whose row is never below the top margin |
| DraggableIcons.Columns | src/components/ui/draggable-icons.tsx:68 | cols is the number of whole 68 px cells in width - 40: cols·68 ≤ width - 40 < (cols + 1)·68; it is 0 exactly when 40 ≤ width < 108 |
| DraggableIcons.GridDistinct | src/components/ui/draggable-icons.tsx:68-72 | with at least one column, distinct apps get cells at least 68 px apart in x or in y |
| DraggableIcons.FarEnough | src/components/ui/draggable-icons.tsx:48-52 | a NaN position is never far enough; a point 68 px or more away in x alone, or in y alone, always is |
| DraggableIcons.IsPositionValid | src/components/ui/draggable-icons.tsx:46-53 | with nothing placed every candidate is valid; a valid candidate implies that no placed position is NaN |
| DraggableIcons.FirstValid | src/components/ui/draggable-icons.tsx:46-64 | the index of the first candidate at least 68 px from every placed icon; None when none is |
| DraggableIcons.Placement | src/components/ui/draggable-icons.tsx:55-75 | an app lands on its grid cell or on a candidate at least 68 px from every earlier icon |
| DraggableIcons.Place | src/components/ui/draggable-icons.tsx:56-73 | the do-while loop makes between 1 and 50 attempts, stops at the first valid candidate, and gives Placement |
| DraggableIcons.PlacementByAttempts | src/components/ui/draggable-icons.tsx:60-73 | the grid is used exactly when no candidate among the first 49 is valid, even when the 50th is |
| DraggableIcons.Rotation | src/components/ui/draggable-icons.tsx:78 | the rotation lies in [-5, 5) degrees |
| DraggableIcons.Positions | src/components/ui/draggable-icons.tsx:55-86 | one position per app placed so far |
| DraggableIcons.PositionsNext | src/components/ui/draggable-icons.tsx:75 | each app is placed against the positions of the apps before it |
| DraggableIcons.PositionsSpaced | src/components/ui/draggable-icons.tsx:46-75 | every app not on the grid is at least 68 px from every app placed before it |
| DraggableIcons.Layout | src/components/ui/draggable-icons.tsx:55-88 | seven apps with the ids and names of designApps in order, their placed positions, and rotations in [-5, 5) |
| DraggableIcons.MakeApp | src/components/ui/draggable-icons.tsx:80-85 | the returned app keeps its id and name and takes the position and a rotation in [-5, 5) |
| DraggableIcons.PlaceApps | src/components/ui/draggable-icons.tsx:55-86 | the map over designApps, pushing each position for the next, produces exactly Layout |
| DraggableIcons.Clamp | src/components/ui/draggable-icons.tsx:119-120 | the dragged coordinate is at least 0, at most extent - 48 when the extent is at least 48, and unchanged when already inside |
| DraggableIcons.MoveApp | src/components/ui/draggable-icons.tsx:133-139 | only the position of the app with the dragged id changes; length, order, ids, names and rotations are kept |
| DraggableIcons.MoveAppTwice | src/components/ui/draggable-icons.tsx:131-141 | of two frames for the same app the later position wins |
| DraggableIcons.MoveAppChangesOne | src/components/ui/draggable-icons.tsx:133-139 | on the placed apps, whose ids are distinct, a frame moves exactly one app and leaves the others unchanged |
| DraggableIcons.Initialize | src/components/ui/draggable-icons.tsx:36-91 | the placement timeout sets the apps to Layout, or does nothing with no container |
| DraggableIcons.MouseDown | src/components/ui/draggable-icons.tsx:95-104 | records the dragged id and the grab offset inside the icon |
| DraggableIcons.MouseMove | src/components/ui/draggable-icons.tsx:109-142 | a no-op with no dragged app or no container; otherwise stores exactly (clamp(clientX - left - offset.x, width), clamp(clientY - top - offset.y, height)), which lies inside the container, and schedules a frame for the dragged app |
| DraggableIcons.Frame | src/components/ui/draggable-icons.tsx:131-141 | the frame moves the app it captured to the latest stored position |
| DraggableIcons.MouseUp | src/components/ui/draggable-icons.tsx:144-153 | clears the dragged app, the stored position and the pending frame, and keeps the apps |
| DraggableIcons.NoMoveAfterRelease | src/components/ui/draggable-icons.tsx:109-153 | after the mouse is released a mouse move changes nothing |
| DraggableIcons.Desk.constructor | src/components/ui/draggable-icons.tsx:30-32 | the component starts with no apps and no drag |
| DraggableIcons.Desk.InitializeApps | src/components/ui/draggable-icons.tsx:36-89 | updates the fields exactly as Initialize |
| DraggableIcons.Desk.HandleMouseDown | src/components/ui/draggable-icons.tsx:95-104 | updates the fields exactly as MouseDown |
| DraggableIcons.Desk.HandleMouseMove | src/components/ui/draggable-icons.tsx:109-142 | updates the fields exactly as MouseMove |
| DraggableIcons.Desk.OnAnimationFrame | src/components/ui/draggable-icons.tsx:131-141 | updates the fields exactly as Frame |
| DraggableIcons.Desk.HandleMouseUp | src/components/ui/draggable-icons.tsx:144-153 | updates the fields exactly as MouseUp |
| Projects.RepeatIndex | src/components/sections/projects.tsx:336 | k copies have k·\|ps\| entries, and entry i is ps[i mod \|ps\|] |
| Projects.InfiniteProjects | src/components/sections/projects.tsx:336 | 60 cards, card i showing project i mod 6 |
| Projects.LabelsOfProjects | src/components/sections/projects.tsx:440-441 | "View Design Process" for DUUET, "View Creative Work" for Social Media Campaigns, "View Case Study" for the four others |
| Projects.ButtonLabel | src/components/sections/projects.tsx:440-441 | "View Creative Work" exactly for Social Media Campaigns, "View Design Process" exactly for DUUET, "View Case Study" exactly for every other title |
| Projects.DigitChar | src/components/sections/projects.tsx:397 | the decimal digit character of d |
| Projects.Decimal | src/components/sections/projects.tsx:397 | an index prints as a non-empty string of digits |
| Projects.DecimalRoundTrip | src/components/sections/projects.tsx:397 | reading the printed index back gives the index |
| Projects.CardKey | src/components/sections/projects.tsx:397 | the key is the title, a dash and the index |
| Projects.DashThenTail | src/components/sections/projects.tsx:397 | in a key the dash sits right after the title, followed by the index digits |
| Projects.SameTail | src/components/sections/projects.tsx:397 | equal keys with dash-free index parts have the same index part |
| Projects.CardKeysDistinct | src/components/sections/projects.tsx:395-397 | cards at different indices get different keys, whatever the titles |
| Projects.Frame | src/components/sections/projects.tsx:342-346 | a frame moves the track 4 px left when not hovered and not at all when hovered; scrollX stays a non-positive multiple of 4 |
| Projects.FramesMove | src/components/sections/projects.tsx:339-352 | n frames move the track exactly 4n px when not hovered, and not at all when hovered |
| Projects.MouseEnter | src/components/sections/projects.tsx:381 | mouse enter sets isHovered and changes nothing else |
| Projects.MouseLeave | src/components/sections/projects.tsx:382 | mouse leave clears isHovered and changes nothing else |
| Projects.Click | src/components/sections/projects.tsx:28-31 | a click selects the project and opens the modal, leaving the track alone |
| Projects.Close | src/components/sections/projects.tsx:458 | closing clears only isModalOpen and keeps the selected project |
| Projects.ClickCard | src/components/sections/projects.tsx:395-404 | clicking card i selects project i mod 6 and opens the modal; closing keeps the selection |
| Projects.ModalView | src/components/sections/projects.tsx:455-460 | the modal is mounted exactly when a project is selected, with that project and the open flag |
| Projects.Carousel.constructor | src/components/sections/projects.tsx:24-26 | the section starts at scrollX 0, not hovered, nothing selected, modal closed |
| Projects.Carousel.OnAnimationFrame | src/components/sections/projects.tsx:342-346 | updates the fields exactly as Frame, keeping scrollX a non-positive multiple of 4 |
| Projects.Carousel.OnMouseEnter | src/components/sections/projects.tsx:381 | updates the fields exactly as MouseEnter |
| Projects.Carousel.OnMouseLeave | src/components/sections/projects.tsx:382 | updates the fields exactly as MouseLeave |
| Projects.Carousel.HandleProjectClick | src/components/sections/projects.tsx:28-31 | updates the fields exactly as Click |
| Projects.Carousel.OnModalClose | src/components/sections/projects.tsx:458 | updates the fields exactly as Close |

## Left out

- Props are fixed for the life of a mounted instance. A re-render with a new `onComplete` function, a new `isVisible`, `text` or `speed` re-runs the effects that depend on them, and the model has no event for that.
- Real time is not modelled. Timers, intervals and animation frames are calls in the order they fire; their delays are constants of the model and nothing more.
- Cleanup functions are not modelled as cancellation. The cleanups returned inside the AnimatedText timer callbacks are discarded by the browser (src/components/ui/animated-text.tsx:52, 55). The model therefore never assumes that a pending timer is cancelled on unmount.
- Rendering, framer-motion transitions and styles are left out. They are declarative and carry no state. The only exceptions are the rendered choices modelled above: cursor, rotator text, tooltip, modal and active button.
- `Math.random()`, `Date.now()` and the DOM queries are parameters and are not modelled.
- AnimatedText.TickPeriodMs: requires speed > 0. The source divides by speed without a check.
- AnimatedText: the first interval tick shows "" (`slice(0, 0)`). The whole text is shown at tick |text| + 1, and completion comes one tick later, at tick |text| + 2.
- AnimatedText.Intersect: reads the current `hasStarted`. The source tests the value its closure captured when the effect last ran (src/components/ui/animated-text.tsx:29-32, dependencies at :71). A second intersecting entry delivered before the effect re-runs therefore starts a second start timeout and a second interval. Their counters take turns calling `setDisplayText`, so the shown text can get shorter, and completion and the cursor hide each run twice. The model keeps one reveal; BatchStarts and DoubleStart record how many the source starts.
- AnimatedText.RestartProof: holds for the model's single reveal only; the double start described above is not covered.
- AlternatingText.Rotator.constructor: requires a non-empty texts list. With an empty list `% texts.length` gives NaN; that case is not modelled.
- GlitchText: the automatic trigger interval (src/components/ui/glitch-text.tsx:44-49) and the hover trigger are not modelled as separate events; each is a TriggerGlitch call. The interval keeps the first render's `triggerGlitch` closure. Its re-entry guard can therefore read a stale `isGlitching`, which the model does not capture. This is harmless here, because glitches last 500 ms and triggers come at least 3000 ms apart.
- TextReveal: the ranges are computed on exact reals, not on floating point. `useTransform` and the scroll progress are left out.
- ParticleTrail: particle size, hue and the rendered animation are left out. Size and hue are random parameters with no promised property.
- HoverInfo.Move: when the pointer enters the arsenal, "lastShowTime is untouched" holds only when it was already in the arsenal. The throttle effect first runs with the previous render's flag, so entering the arsenal can still show an item and use up the 2500 ms window; EnteringArsenalUsesWindow exhibits this.
- HoverInfo: effect re-runs caused only by the lastShowTime update are evaluated at the same clock reading, so they do nothing in the model. `useMousePosition` is not part of this model, and the pointer position is a parameter.
- FloatingNav: `scrollToSection` on a button click only calls the browser's `scrollIntoView` and is left out.
- Text is a sequence of Unicode characters, while JavaScript strings count UTF-16 code units. AnimatedText.IntervalTick (`slice`), TypewriterText.Step (`text[currentIndex]`), ModernLoader.Substring0 (`substring`) and GlitchText.ScrambleChar and GlitchText.Scramble (`split('')`, `text[index]`) therefore differ from the source on characters outside the Basic Multilingual Plane, such as emoji. There the source shows or scrambles half of a surrogate pair and takes one extra tick per such character; the model does neither. Every text the site passes is ASCII, where the two agree.
- KeyboardShortcuts: `toLowerCase` is modelled on ASCII letters only. The scrolling itself is left to the browser; Dispatch returns which scroll the handler asks for.
- DraggableIcons: the distance test compares squared distances instead of taking a square root, and positions are exact reals, not floating point. When the container is too narrow for one grid column, the NaN that the division by zero gives is a `NotANumber` position. The drag offset is always two numbers: `handleMouseDown` stores it before any move reads it.
- DraggableIcons: the global mouse listeners' registration and `preventDefault` are left out, as is the render.
- ModernLoader.ProgressSchedule: "onComplete is scheduled exactly once" holds only while the `onComplete` prop stays the same function. The completion effect depends on `[progress, onComplete]` (src/components/ui/modern-loader.tsx:28-32); a parent passing a new function at progress 100 schedules it again, which is not modelled.
- ModernLoader.ProgressStaysFull: "not scheduled again" holds only for a fixed `onComplete`, for the same reason.
- ModernLoader.TypingTick: the TypewriterLoader effect depends on `[isVisible, onComplete]` (src/components/ui/modern-loader.tsx:150-164). A new `onComplete` clears the interval and restarts typing at index 0 over the text already shown, and a completion timeout already set is not cancelled; neither is modelled.
- ModernLoader: `LogoLoader` and `GeometricLoader` only schedule a fixed timeout and are left out. `onComplete` is recorded as scheduled, not run.
- Projects: only the titles of the project records are modelled. The rest is static content, shown by the modal component, which is not part of this model.
