# Portfolio front-end logic, modelled in Dafny

This project models the small pieces of real logic inside a single-page
portfolio site. The site has a falling-character canvas background, a
cursor trail, three content pages plus a home page, and a profile card that
types out a quote and glitches its signature. Everything else in the site is
markup and styling.

- `cursor_trail.dfy` (module `CursorTrail`): the cursor trail is a bounded
  list of time-stamped points. Each mouse move appends a point and keeps only
  the eight most recent earlier points. A sweep drops every point 1000 ms old
  or older.
- `pages.dfy` (module `Pages`): the current page, what the main area renders
  for it, which nav button is lit, and the status-to-colour maps of the
  exploit cards and the service list.
- `matrix_rain.dfy` (module `MatrixRain`): the glyph pool behind the
  background. A resize rebuilds the pool with two glyphs per 20-pixel column.
  Each animation frame moves every glyph down by its speed. A glyph that falls
  past the bottom edge re-enters at y = -20 with a new x and a new character.
  Glyphs are objects (`Glyph`) that the frame updates in place. The pool
  (`Rain`) keeps them in a sequence field.
- `about_me.dfy` (module `AboutMe`): the profile card as a state machine over
  its React state and its timer counter. Each timer callback is a method:
  the typing tick, the stats timeout, the glitch tick and the restore
  timeout. Also here is the glitch builder, a loop that produces a string of
  the same length.
- `oracle.dfy` (module `Oracle`): every `Math.random()` draw is a real
  number in [0, 1) passed in by the caller. This module turns a draw into an
  index (`Math.floor(r * n)`) or a coordinate (`r * width`).

`Date.now()` is a parameter `now`. The browser's timers are not modelled:
each callback is a method that the caller may invoke in any order.

Page keys are strings. The nav items reach `navigateTo` through an unchecked
`as Page` cast of their `key` strings, and `renderCurrentPage` switches on the
string. So the model states what happens for every string, not only the four
values of the `Page` type.

## Model

| member | source | states |
|---|---|---|
| CursorTrail.LastK | src/App.tsx:112 | `slice(-k)` gives the last min(k, n) elements of the list, as a suffix |
| CursorTrail.Append | src/App.tsx:111-114 | after a mouse move the trail has at most 9 points; its last point is the new one, stamped with `now`; the points before it are exactly the last min(8, n) points of the old trail, in order |
| CursorTrail.Alive | src/App.tsx:124 | a point stamped at `now` or later is kept; a point stamped 1000 ms or more before `now` is dropped |
| CursorTrail.Expire | src/App.tsx:124 | the sweep never lengthens the trail; a point is in the result iff it was in the trail and `now - id < 1000` |
| CursorTrail.ExpireConcat | src/App.tsx:124 | sweeping a concatenation is sweeping each part; with ExpireSingle this pins the result down as the survivors in their original order |
| CursorTrail.ExpireSingle | src/App.tsx:124 | a single point survives iff it is younger than 1000 ms |
| CursorTrail.ExpireAllAlive | src/App.tsx:124 | a sweep removes nothing from a trail whose points are all younger than 1000 ms |
| CursorTrail.ExpireIdempotent | src/App.tsx:124 | two sweeps at the same `now` give the same trail as one |
| CursorTrail.ExpireDropsPrefix | src/App.tsx:124 | on a trail whose stamps never decrease, the sweep removes an initial run of expired points and keeps the rest as a suffix |
| CursorTrail.AppendChronological | src/App.tsx:111-114 | a move stamped no earlier than the trail's points keeps the stamps in non-decreasing order |
| Pages.NavigateTo | src/App.tsx:130-135 | navigation always sets the current page to the requested page; the transition sound plays iff it was registered |
| Pages.RenderCurrentPage | src/App.tsx:759-770 | the exploits, frameworks and contact pages are rendered for exactly their keys; every other string renders the home page |
| Pages.RenderIsBijective | src/App.tsx:759-770 | among the four page keys, each view is rendered for its own key and for no other |
| Pages.NavButtonStyle | src/App.tsx:855-859 | a nav button is highlighted iff its key equals the current page |
| Pages.NavHighlight | src/App.tsx:843-859 | on home no nav button is lit; on a nav item's page exactly that button is lit and that page is rendered; never more than one button is lit |
| Pages.ClickNavItem | src/App.tsx:847-853 | clicking nav item i lights exactly button i and renders its page; going home lights none and renders the home page |
| Pages.ClassesNameTheirColor | src/App.tsx:360-364 | distinct colours give distinct badge classes and distinct dot classes |
| Pages.ExploitStatusColor | src/App.tsx:360-364 | an exploit status is green iff "Active", yellow iff "Beta", red for anything else, never blue |
| Pages.ExploitBadgeClass | src/App.tsx:360-364 | the exploit badge's ternary, as written, gives for every status the badge classes of the status colour |
| Pages.ServiceStatusColor | src/App.tsx:733-746 | a service status is green iff "ACTIVE", red iff "CLASSIFIED", yellow iff "BETA", blue for anything else |
| Pages.ServiceDotClass | src/App.tsx:733-738 | the service dot's ternary, as written, gives for every status the dot class of the status colour |
| Pages.ServiceBadgeClass | src/App.tsx:741-746 | the service badge's ternary, as written, gives for every status the badge classes of the status colour |
| Pages.ServiceDotAndBadgeAgree | src/App.tsx:733-746 | the two separate ternaries for a service's dot and badge always name the same colour |
| Oracle.Scale | src/App.tsx:51-52 | a draw scaled by a canvas dimension w lies in [0, w), or is 0 when w is 0 |
| Oracle.Pick | src/App.tsx:50 | `Math.floor(Math.random() * n)` is a valid index below n |
| MatrixRain.RandomChar | src/App.tsx:76 | a randomly chosen glyph character is always from the `chars` alphabet |
| MatrixRain.NumGlyphs | src/App.tsx:46 | the pool size is even, two glyphs per whole 20-pixel column of the width |
| MatrixRain.Spawned | src/App.tsx:49-55 | a new glyph has x in [0, width] and y in [0, height]; on a non-empty canvas it also has an alphabet character, x below width, speed in [1, 4) and opacity in [0.1, 0.6) |
| MatrixRain.Step | src/App.tsx:71-82 | a frame keeps speed and opacity; a glyph whose y + speed passes the height is reset to y = -20 with a new x; otherwise it moves down by its speed and keeps x; its character is kept or drawn from the alphabet |
| MatrixRain.StepStaysInPool | src/App.tsx:71-82 | a frame keeps every pool bound: y stays between -20 and the height, x on the canvas, the character in the alphabet |
| MatrixRain.Glyph.constructor | src/App.tsx:49-55 | a glyph object holds the given field values |
| MatrixRain.Glyph.Fall | src/App.tsx:71-82 | updating a glyph object in place leaves it in the state `Step` gives |
| MatrixRain.Rain.constructor | src/App.tsx:27 | the pool starts empty |
| MatrixRain.Rain.Resize | src/App.tsx:40-57 | resize stores the new size and replaces the pool with exactly `floor(width/20)*2` fresh, distinct glyphs, the i-th built from the i-th draw |
| MatrixRain.Rain.Animate | src/App.tsx:67-83 | a frame applies `Step` to every glyph object in place and keeps the pool invariant |
| AboutMe.GlitchChar | src/components/AboutMeCard.tsx:53-57 | one character's glitch keeps a space, is the original or a member of `glitchChars`, and is the original when no replacement is drawn |
| AboutMe.Glitched | src/components/AboutMeCard.tsx:51-58 | a glitched text has the same length, keeps every space, and holds at every position the original character or a member of `glitchChars` |
| AboutMe.GlitchedAt | src/components/AboutMeCard.tsx:52-57 | character i of the glitch is decided by roll i alone |
| AboutMe.GlitchedWithoutReplacement | src/components/AboutMeCard.tsx:53-57 | when no roll asks for a replacement, the glitch returns the text unchanged |
| AboutMe.BuildGlitch | src/components/AboutMeCard.tsx:51-58 | the character-by-character loop builds exactly `Glitched`, so its result has the three properties above |
| AboutMe.Card.constructor | src/components/AboutMeCard.tsx:5-8 | the card starts invisible, with nothing typed, no stats and an empty signature |
| AboutMe.Card.Mount | src/components/AboutMeCard.tsx:17-26 | mounting makes the card visible and starts typing from index 0; a second mount changes nothing |
| AboutMe.Card.TypingTick | src/components/AboutMeCard.tsx:26-37 | while index < quote length a tick shows the first index+1 characters and increments index; at the end it stops typing and schedules the stats; nothing is typed while no interval runs; the typing sound plays only when registered and drawn |
| AboutMe.Card.StatsTimeout | src/components/AboutMeCard.tsx:35 | the scheduled timeout shows the stats, with the whole quote typed and the signature reset to the original; no other field changes |
| AboutMe.Card.GlitchTick | src/components/AboutMeCard.tsx:49-62 | once the stats show, a drawn glitch sets the signature to `Glitched(signature)` and schedules a restore; otherwise nothing changes |
| AboutMe.Card.RestoreTimeout | src/components/AboutMeCard.tsx:61 | a pending restore puts the original signature back |
| AboutMe.Card.Sections | src/components/AboutMeCard.tsx:140-218 | the signature, stats, skills and status sections render all together or not at all, and the stats grid renders iff `showStats` |
| AboutMe.SectionsNeedWholeQuote | src/components/AboutMeCard.tsx:140-218 | the signature, stats, skills and status sections render iff `showStats`, and then the whole quote has been typed |
| AboutMe.TypedIsPrefix | src/components/AboutMeCard.tsx:26-32 | the typed text is always a prefix of the quote, and empty until the card is visible |

`AboutMe.Card.Valid` is the state invariant that every card method keeps. It
says that the typed text is the first `index` characters of the quote and that
nothing is typed before the card is visible. It also says that the stats
appear only with the whole quote typed and the interval stopped. Before the
stats are shown, the signature is the empty string it starts as. Once they
are shown, the signature is always a glitch of the original, and it is the
original whenever no restore is pending.

## Left out

- Canvas drawing, fonts, colours and `globalAlpha`, `requestAnimationFrame` and the resize and mouse-move listener wiring and cleanup: browser I/O with no logic to state.
- `Math.random()` and `Date.now()`: passed in as parameters (draws in [0, 1) and a time stamp).
- Timer periods (60 ms typing, 50 ms sweep, 2000 ms glitch, 100 ms restore, 500 ms stats delay) and the 70%, 10%, 30% and 2% chances as timing behaviour: each callback is a method the caller may run in any order, and each chance is a comparison of a draw against a constant.
- CursorTrail.Expire: one `now` for the whole sweep; the source reads the clock once per point, so points seen later in one sweep may be judged against a clock a millisecond later.
- The float cursor normalisation (src/App.tsx:106-107) and the trail opacity formula (src/App.tsx:804): display values in floating point.
- Glyph coordinates, speeds and opacities are exact reals, not IEEE doubles.
- The ambient and UI sounds of src/components/SoundManager.tsx: SoundManager is not part of this model. Only whether the page-transition sound is registered enters `Pages.NavigateTo`.
- All markup, keyframes and the hard-coded content arrays (exploits, frameworks, skills, stats), and the contact form, whose submit only prevents the default and plays a sound.
- React's rendering and effect scheduling: each state update is applied at once, and the effects that follow a state change (starting the typing interval, resetting the signature) are folded into the method that makes the change.
