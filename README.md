# Portfolio headline: systems list and typewriter animator

This project models the logic of the portfolio landing page `app/page.tsx`.

- **Systems list** (`systems.dfy`, module `Systems`). The page declares eleven
  "systems" (topics), each with an id, a title, a description, optional tags
  and an `unlocked` flag. From this list it derives the strings handed to the
  headline animator. A locked system shows its title and a hint; an unlocked
  one shows its title and description.
  - `unlockSystem` and `lockSystem` find the first system with a given id and
    set its flag in place. They then persist the ids of all unlocked systems.
  - At start-up, the ids read back from storage are ORed into the flags.
  - The mutable module-level list is the class `Registry`. Its methods are
    proved against the pure functions `WithFlag`, `UnlockedIds` and `Merged`.
- **Typewriter** (`typewriter.dfy`, module `Typewriter`). `TypewriterText`
  cycles through the names for ever. It types a name one character per
  100 ms, idles one more tick at the full name, and pauses 2000 ms. It then
  deletes one character per 50 ms and moves to the next name, wrapping after
  the last. A cursor blinks every 500 ms.
  - Each timer firing is an event: `Tick` (the effect's timeout),
    `PauseElapsed` (the nested pause timeout) or `CursorToggle` (the blink
    interval).
  - `TickStep`, `PauseStep` and `ToggleStep` are the pure transitions.
    `Run` replays a sequence of firings.
  - The class `Animator` holds the component's state variables and updates
    them in place. Its methods are proved equal to the pure steps.
  - `clock` is the virtual time of the typing timers and `cursorClock` that of
    the blink interval. The two timer chains are independent.
  - `pausePending` records that the pause timeout is armed. While it is
    armed, no tick is scheduled: the tick that armed it changed no state, so
    the effect does not run again.
- `wrappers.dfy` (module `Wrappers`) holds the `Option` type.

Notes on reading the code:

- `names` is computed when the module loads (app/page.tsx:97), before the
  start-up merge (app/page.tsx:124-132). The animator therefore receives the
  labels of the declared catalogue, `Names(Catalog)`. Neither the merge nor a
  later unlock or lock changes them. `StoredUnlockChangesEntry` shows that a
  merge that unlocks a system would change its entry.
- The pause after typing is 2000 ms, but the tick that finds the full name
  comes 100 ms after the last character and only then arms the timeout
  (app/page.tsx:147-149). A cycle over a name of n characters therefore takes
  150·n + 2150 ms (`CycleTimeValue`).

## Model

| member | source | states |
|---|---|---|
| Systems.Names | app/page.tsx:97-99 | one entry per system, in the same order; entry i is the title and description when system i is unlocked, and the title with the locked hint otherwise |
| Systems.LabelRevealsIffUnlocked | app/page.tsx:98 | an entry starts with the title, and it shows `title: description` exactly when the system is unlocked |
| Systems.Find | app/page.tsx:104 | `find` by id: a found index is in range, has the id and no earlier system has it; nothing is found exactly when no system has the id |
| Systems.WithFlag | app/page.tsx:104-106 | an unknown id leaves the list unchanged; otherwise only the first system with the id gets the new flag and every other system is unchanged |
| Systems.UnlockedIds | app/page.tsx:108 | the persisted list contains an id exactly when some unlocked system has it, and is no longer than the list |
| Systems.UnlockedIdsAppend | app/page.tsx:108 | filter-then-map distributes over concatenation, so the persisted ids keep list order |
| Systems.Merged | app/page.tsx:128-130 | the merge keeps every id, title, description and tags; each new flag is "stored ids contain the id, or the old flag" |
| Systems.FindReadsIdsOnly | app/page.tsx:104 | two lists with the same ids in the same order give the same lookup result |
| Systems.FindIgnoresFlags | app/page.tsx:104-106 | toggling any system never changes where a later lookup lands |
| Systems.LastToggleWins | app/page.tsx:103-121 | unlocking or locking an id twice is the same as the second call alone |
| Systems.UnlockPersistsId | app/page.tsx:103-109 | after unlocking a known id, the persisted list contains that id |
| Systems.LockDropsId | app/page.tsx:113-119 | when ids are unique, after locking an id the persisted list no longer contains it |
| Systems.MergeNeverLocks | app/page.tsx:129 | the start-up merge never clears a flag |
| Systems.MergeIgnoresUnknownIds | app/page.tsx:128-130 | stored ids that name no system have no effect on the merge |
| Systems.MergeTwice | app/page.tsx:128-130 | merging with one stored list and then another is merging once with both |
| Systems.StoredUnlockChangesEntry | app/page.tsx:97-99 | a stored id that unlocks a locked system changes that system's entry, so entries derived before the merge no longer match the flags |
| Systems.CatalogFeedsTypewriter | app/page.tsx:15-99 | the declared catalogue yields eleven entries, so the animator's list is non-empty; the first entry is revealed and the third is locked |
| Systems.CatalogIdsUnique | app/page.tsx:15-94 | no two declared systems share an id |
| Systems.CatalogUnlocked | app/page.tsx:15-94 | before any merge the unlocked ids are systems-engineering, frontend, design and research, in that order |
| Systems.Registry.constructor | app/page.tsx:15 | the registry starts with the given list |
| Systems.Registry.Unlock | app/page.tsx:103-111 | the list becomes `WithFlag(old list, id, true)`; the result is None for an unknown id, and otherwise the unlocked ids of the new list |
| Systems.Registry.Lock | app/page.tsx:113-121 | the list becomes `WithFlag(old list, id, false)`; the result is None for an unknown id, and otherwise the unlocked ids of the new list |
| Systems.Registry.MergeStored | app/page.tsx:124-132 | with nothing stored the list is unchanged; otherwise the loop leaves it equal to `Merged(old list, stored ids)` |
| Typewriter.NextIndex | app/page.tsx:156 | the next index is always a valid index |
| Typewriter.NextIndexIsModulo | app/page.tsx:156 | the next index equals `(index + 1) % names.length` |
| Typewriter.SubstringTo | app/page.tsx:160-162 | `substring(0, end)` is a prefix of the name, with `end` clamped to the name's bounds |
| Typewriter.InitialValid | app/page.tsx:135-138 | the mount state (index 0, empty text, typing, cursor shown) satisfies the invariant |
| Typewriter.TickStep | app/page.tsx:140-165 | a tick keeps the invariant (index in range, text a prefix of the current name) and happens 100 ms (typing) or 50 ms (deleting) after the last change; it leaves the cursor alone |
| Typewriter.TypingTickAddsNextChar | app/page.tsx:162 | while typing, a tick appends exactly the next character of the name, 100 ms later |
| Typewriter.DeletingTickDropsLastChar | app/page.tsx:160 | while deleting, a tick removes exactly the last character, 50 ms later |
| Typewriter.FullTextTickArmsPause | app/page.tsx:147-151 | at the full name, a tick changes neither text nor index and only arms the pause |
| Typewriter.EmptyTickAdvances | app/page.tsx:153-157 | at the empty text while deleting, a tick switches to typing the next name, wrapping after the last |
| Typewriter.PauseStep | app/page.tsx:142-149 | the pause fires 2000 ms after it was armed, starts deleting and keeps text and index |
| Typewriter.ToggleStep | app/page.tsx:171-174 | every 500 ms the cursor visibility flips; index, text, mode, armed pause and typing clock stay the same |
| Typewriter.Step | app/page.tsx:144-174 | any armed timer firing keeps the invariant |
| Typewriter.Run | app/page.tsx:140-177 | any sequence of armed firings keeps the invariant |
| Typewriter.SpanIsProduct | app/page.tsx:141 | n ticks of one delay take n times that delay |
| Typewriter.CycleTimeValue | app/page.tsx:141-149 | one cycle over a name of n characters takes 150·n + 2150 ms |
| Typewriter.RunAppend | app/page.tsx:140-177 | replaying a + b is replaying a, then b from where a ended, or failing when a fails |
| Typewriter.RunThrough | app/page.tsx:140-177 | two successful replays in a row make one successful replay |
| Typewriter.TypingPhase | app/page.tsx:162 | from a prefix of length k, one tick per remaining character types the full name |
| Typewriter.DeletingPhase | app/page.tsx:160 | from a prefix of length k, k ticks empty the text |
| Typewriter.PauseSegment | app/page.tsx:147-151 | at the full name, the idle tick and the pause start deleting 2100 ms later |
| Typewriter.AdvanceSegment | app/page.tsx:153-157 | at the empty text while deleting, one tick starts typing the next name |
| Typewriter.CycleReach | app/page.tsx:144-165 | one full cycle from the start of a name reaches the start of the next name after the cycle's time |
| Typewriter.CycleCloses | app/page.tsx:144-165 | cycle closure: type, idle tick, pause, delete and advance lead from the start of name i to the start of name (i + 1) mod n |
| Typewriter.SingleNameWraps | app/page.tsx:156 | with a single name, one cycle returns to the starting state, with only the clock moved |
| Typewriter.RoundsReach | app/page.tsx:144-165 | k ≤ n cycles from the start of name i reach the start of name i + k, wrapped once |
| Typewriter.WrappedIsModulo | app/page.tsx:156 | within one lap, the wrapped position i + k equals `(i + k) % names.length` |
| Typewriter.FullRotationReturns | app/page.tsx:144-165 | one cycle per name returns the animator to its starting state; only the clock has moved |
| Typewriter.SingleShortNameTrace | app/page.tsx:144-165 | on the single name "ab" the text goes "", "a", "ab", (pause), "a", "" and typing starts over 2450 ms later |
| Typewriter.TwoNamesAlternate | app/page.tsx:156 | with two names, one cycle moves to the second name, and the chained run of both cycles returns to the starting state with only the clock moved |
| Typewriter.ToggleTwiceRestores | app/page.tsx:173 | two blinks restore the cursor's visibility, 1000 ms later |
| Typewriter.ToggleCommutes | app/page.tsx:171-177 | a blink commutes with every other firing and arms or disarms nothing |
| Typewriter.StepIgnoresCursor | app/page.tsx:140-167 | the typing transitions never read the cursor |
| Typewriter.WithoutTogglesAppend | app/page.tsx:171-177 | dropping the blinks distributes over concatenation, so the other firings keep their order |
| Typewriter.WithoutTogglesKeepsOthers | app/page.tsx:171-177 | a sequence with no blinks is kept unchanged |
| Typewriter.TypingIgnoresBlinks | app/page.tsx:140-177 | replaying firings with or without their blinks succeeds in the same cases and gives the same text, index, mode and typing clock |
| Typewriter.Animator.constructor | app/page.tsx:135-138 | a mounted animator is in the initial state and satisfies the invariant |
| Typewriter.Animator.Tick | app/page.tsx:144-165 | the state after the callback is `TickStep` of the state before it, and the invariant holds |
| Typewriter.Animator.PauseElapsed | app/page.tsx:149 | the state after the callback is `PauseStep` of the state before it, and the invariant holds |
| Typewriter.Animator.ToggleCursor | app/page.tsx:172-174 | the state after the callback is `ToggleStep` of the state before it, and the invariant holds |

## Left out

- Browser storage and JSON are not modelled. `Registry.Unlock` and
  `Registry.Lock` return the list they would write. `Registry.MergeStored`
  takes the stored ids as an option. None stands for a missing or empty entry,
  a parse error and any other exception the `try` swallows.
- A stored value that parses to something other than an array of strings is
  not modelled. For example, a JSON string would make `includes` a substring
  test.
- Real timers are not modelled. `setTimeout`, `setInterval` and their
  cancellation on re-render or unmount are abstracted as events that fire
  when armed. The pause timeout is never cancelled, even when the component
  unmounts; this is not modelled.
- Replacing `names` while the animator runs, which restarts its effect, is
  not modelled. The page passes a constant list.
- JavaScript strings are UTF-16 code units. The model counts one `char` per
  position, so a name containing characters outside the Basic Multilingual
  Plane would be split differently.
- Rendering is not modelled: the JSX, the `Home` page's static sections and
  `app/layout.tsx`. The `tags` field is kept but nothing reads it.
- Typewriter.Run: states only that the invariant is kept. The exact effect of
  runs is stated by `CycleCloses`, `FullRotationReturns` and the phase lemmas,
  starting from the beginning of a name.
