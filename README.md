# Wryte-Byte typewriter engine and gradient grid, in Dafny

This project models two pieces of the Wryte-Byte landing page.

- **The `TypedText` typewriter** (`typewriter.dfy`, module `Typewriter`). It reveals an ordered list of content items one character at a time. Its six state fields are `typedText`, `currentItemIndex`, `startTyping`, `isTypingComplete`, `showCursor` and `cursorVisible`. They live in the class `TypedText`, and `State()` packs them into an `EngineState` value. Timers are replaced by explicit calls:
  - `Start` is the start timer firing after `initialDelay`.
  - `Reset` is the visibility effect when the component is hidden.
  - `Tick(isVisible, width)` is one run of the typing effect. It picks the delay from the current item, then fires `typeNextCharacter`.
  - `BlinkToggle` is one firing of the blink effect.

  Each method's `ensures` ties the new state to a pure function of the old one (`TypeNextCharacter`, `BlinkStep`, `Cleared`). The invariant `Inv` describes every reachable state, and the lemmas about those functions carry the proofs. `typewriter_examples.dfy` (module `TypewriterExamples`) runs the engine on concrete content: the opening of the home page's about-us text, and a two-item "Hi"/"Bye" script.
- **The gradient block grid** (`gradient_cards.dfy`, module `GradientCards`). It covers four things:
  - the in-place Fisher–Yates `shuffleArray`;
  - the base-colour pick of each block, taken from a shuffled copy of the colour table;
  - the `handleResize` fold of media-query overrides onto the base grid properties;
  - the number of blocks rendered.

  `Math.random()` is a sequence `rolls` of values in [0, 1). `window.matchMedia(q).matches` is a function parameter `matches`. The viewport width is a parameter of `Tick`.

Where the code behaves unexpectedly, the model follows it:
- The character position is the length of the current entry. There is no separate character index.
- The tick that only moves to the next item is charged the delay of the item it leaves (`TypewriterExamples.HiByeTimeline`). With heading delay 10 and paragraph delay 5, "Hi" then "Bye" completes after 50 ms.
- Empty content is not guarded. The delay lookup indexes `content[currentItemIndex]` before the callback's bounds check, so `Tick` requires non-empty content once the engine is visible and started.
- With blinking off, the cursor stays on the last item after completion. The render condition ignores `cursorVisible` in that case (`CursorPersistsWithoutBlinking`).
- Delays are used as given; the code does not clamp them.

The home page passes only `typingSpeed`. On a narrow viewport the default mobile profile applies instead, as `AdvanceIsChargedTheOldItem` shows.

## Model

| member | source | states |
|---|---|---|
| `Typewriter.Cleared` | wryte-byte/src/Components/TypedText.tsx:37-42 | The mount and reset state: n empty entries, index 0, not started, not complete, cursor not shown, `cursorVisible` true. |
| `Typewriter.GetTypingSpeed` | wryte-byte/src/Components/TypedText.tsx:44-47 | The mobile profile below width 768, the desktop profile otherwise. |
| `Typewriter.SpeedFor` | wryte-byte/src/Components/TypedText.tsx:95-102 | The delay for a tag is one of the profile's `heading`, `paragraph` or `subHeading`; `h1` gets `heading`. |
| `Typewriter.TickDelay` | wryte-byte/src/Components/TypedText.tsx:95-102 | The delay of the next tick is the current item's tag speed from the profile the width selects. |
| `Typewriter.DefaultProfilesAgree` | wryte-byte/src/Components/TypedText.tsx:31-32 | The two default profiles differ only in `backspace`, so with the defaults the width never changes a delay. |
| `Typewriter.ShouldShowCursor` | wryte-byte/src/Components/TypedText.tsx:125-128 | The per-item cursor rule: it holds only when `showCursor` does, and then only at the current item while typing or at the last item once complete. |
| `Typewriter.CursorRendered` | wryte-byte/src/Components/TypedText.tsx:142 | The glyph is emitted only at an existing item where the rule holds. With blinking on it also needs `cursorVisible`; with blinking off it is exactly the rule. |
| `Typewriter.BlinkStep` | wryte-byte/src/Components/TypedText.tsx:109-118 | The blink effect changes only `cursorVisible`, and only once typing is complete. It toggles it when blinking and clears it otherwise. |
| `Typewriter.TypedText.constructor` | wryte-byte/src/Components/TypedText.tsx:37-42 | The initial state: one empty entry per item, index 0, not started, not complete, cursor not shown, `cursorVisible` true; it satisfies the invariant. |
| `Typewriter.TypedText.Start` | wryte-byte/src/Components/TypedText.tsx:49-55 | The start timer sets `startTyping` and `showCursor` and changes nothing else. |
| `Typewriter.TypedText.Reset` | wryte-byte/src/Components/TypedText.tsx:56-63 | Whatever the prior state, hiding restores the initial state: every entry `""`, index 0, flags cleared, `cursorVisible` true. A hide/show cycle therefore replays from the same state. |
| `Typewriter.TypedText.Tick` | wryte-byte/src/Components/TypedText.tsx:66-107 | No tick unless visible and started. Otherwise the delay is chosen from the item current before the tick, and the state becomes `TypeNextCharacter` of the old state. The invariant is kept. Non-empty content is required because the delay lookup indexes before the guard. |
| `Typewriter.TypedText.BlinkToggle` | wryte-byte/src/Components/TypedText.tsx:109-119 | The new state is `BlinkStep` of the old one. The invariant is kept. |
| `Typewriter.TypedText.ShowsCursorAt` | wryte-byte/src/Components/TypedText.tsx:124-142 | A cursor is shown only at an existing item of a started engine, and only at the current item while typing. |
| `Typewriter.TypeNextCharacter` | wryte-byte/src/Components/TypedText.tsx:71-93 | A tick keeps one entry per item. It never moves the index backwards, and it keeps the index below `|content|`. |
| `Typewriter.TickTouchesOnlyCurrent` | wryte-byte/src/Components/TypedText.tsx:82-86 | A tick changes no entry other than the one at `currentItemIndex`. It leaves `startTyping` and `cursorVisible` alone. |
| `Typewriter.TickDoesOneThing` | wryte-byte/src/Components/TypedText.tsx:78-92 | A tick does exactly one of three things. It appends the next character of the item (the entry grows by one). Or, when the item is fully typed and not last, it advances the index by exactly 1. Or, when the last item is fully typed, it marks typing complete. |
| `Typewriter.TickPreservesInv` | wryte-byte/src/Components/TypedText.tsx:79-91 | Ticks of a started engine keep the invariant: every entry is a prefix of its item, earlier entries are complete, later ones are empty, and the index stays below `|content|`. |
| `Typewriter.TickCompletesIff` | wryte-byte/src/Components/TypedText.tsx:87-91 | After a tick typing is complete iff it already was or the last item was current and fully typed. |
| `Typewriter.CompletedTickIsIdempotent` | wryte-byte/src/Components/TypedText.tsx:87-91 | A tick in the completed state changes nothing. |
| `Typewriter.UntypedUpdate` | wryte-byte/src/Components/TypedText.tsx:82-86 | Replacing one entry changes the count of untyped characters by exactly the change in that entry's length. |
| `Typewriter.UntypedZeroIffAllTyped` | wryte-byte/src/Components/TypedText.tsx:79-84 | With every entry a prefix, the untyped count is non-negative, and it is zero iff every entry equals its item. |
| `Typewriter.RemainingZeroIffReady` | wryte-byte/src/Components/TypedText.tsx:81-89 | The measure (untyped characters plus items still ahead) is non-negative. It is zero exactly when the last item is current and fully typed. |
| `Typewriter.TickDecreasesRemaining` | wryte-byte/src/Components/TypedText.tsx:81-88 | Every tick that does not complete typing strictly decreases the measure. |
| `Typewriter.RunFromCompleted` | wryte-byte/src/Components/TypedText.tsx:87-91 | Any number of ticks from a completed state leave it unchanged. |
| `Typewriter.RunToCompletion` | wryte-byte/src/Components/TypedText.tsx:71-93 | From any reachable started state, more than `Remaining` ticks complete typing with every entry equal to its item's full text. |
| `Typewriter.MobileProfileIffNarrow` | wryte-byte/src/Components/TypedText.tsx:44-47 | The mobile profile is chosen iff the width is below 768. |
| `Typewriter.SpeedByTag` | wryte-byte/src/Components/TypedText.tsx:95-102 | `h5` is typed at `subHeading`, `h1` at `heading`, every other tag at `paragraph`. `backspace` never affects the delay. |
| `Typewriter.AtMostOneCursor` | wryte-byte/src/Components/TypedText.tsx:124-128 | At most one item shows a cursor. |
| `Typewriter.NoCursorBeforeStart` | wryte-byte/src/Components/TypedText.tsx:124-128 | Before the start timer fires no cursor is shown. |
| `Typewriter.CursorFollowsTyping` | wryte-byte/src/Components/TypedText.tsx:124-142 | While typing, the cursor is shown at item i iff i is the current item, blinking or not. |
| `Typewriter.CursorAfterCompletion` | wryte-byte/src/Components/TypedText.tsx:124-142 | After completion, the cursor is shown at item i iff i is the last item and either blinking is off or `cursorVisible` holds. |
| `Typewriter.CursorPersistsWithoutBlinking` | wryte-byte/src/Components/TypedText.tsx:116-142 | With blinking off, the blink effect clears `cursorVisible`, but the last item still shows the cursor. |
| `Typewriter.BlinkPreservesInv` | wryte-byte/src/Components/TypedText.tsx:109-118 | The blink step keeps the invariant. It changes `cursorVisible` only once typing is complete, and turns it back on only when blinking is enabled. |
| `TypewriterExamples.AdvanceIsChargedTheOldItem` | wryte-byte/src/Components/TypedText.tsx:95-104 | On the home page's content, the tick that leaves the `h5` item is charged the sub-heading delay (5 wide, 10 narrow). The next tick is charged the paragraph delay (1 wide, 2 narrow). |
| `TypewriterExamples.HiByeTimeline` | wryte-byte/src/Components/TypedText.tsx:71-104 | "Hi" (h1, 10 ms) then "Bye" (p, 5 ms): the texts after 2, 3, 6 and 7 ticks, with elapsed delays 20, 30, 45 and 50. |
| `GradientCards.RandomIndex` | wryte-byte/src/Components/gradient/GradientCards.tsx:21 | `floor(r * n)` with r in [0, 1) is an index in [0, n). For `n = i + 1` the swap partner satisfies 0 <= j <= i. |
| `GradientCards.Swap` | wryte-byte/src/Components/gradient/GradientCards.tsx:22 | The swap exchanges the two cells and keeps every other cell and the multiset. |
| `GradientCards.ShuffleFrom` | wryte-byte/src/Components/gradient/GradientCards.tsx:20-23 | Iterations i down to 1 keep the length and the multiset. They leave every position above i unchanged, so a position is final once its iteration has run. |
| `GradientCards.Shuffle` | wryte-byte/src/Components/gradient/GradientCards.tsx:19-25 | The shuffle is a permutation of its input. Arrays of length 0 or 1 come back unchanged. |
| `GradientCards.ShuffleArray` | wryte-byte/src/Components/gradient/GradientCards.tsx:19-25 | The shuffle works in place and returns the same array, whose contents are `Shuffle` of the old contents. |
| `GradientCards.PickBaseColor` | wryte-byte/src/Components/gradient/GradientCards.tsx:31-34 | The base colour is an entry of the colour table. It is the randomly indexed entry of a shuffled copy, and the table itself cannot change. |
| `GradientCards.ApplyQueries` | wryte-byte/src/Components/gradient/GradientCards.tsx:121-127 | The fold never drops a base property. |
| `GradientCards.NoMatchKeepsBase` | wryte-byte/src/Components/gradient/GradientCards.tsx:121-127 | If no query matches, the result is the base. |
| `GradientCards.UnsuppliedFieldKeepsBase` | wryte-byte/src/Components/gradient/GradientCards.tsx:122-126 | A field that no matching query supplies keeps its base value. |
| `GradientCards.LastMatchWins` | wryte-byte/src/Components/gradient/GradientCards.tsx:122-126 | A field takes the value from the last matching query that supplies it. Later matches win. |
| `GradientCards.HandleResize` | wryte-byte/src/Components/gradient/GradientCards.tsx:120-128 | The resize handler's loop computes the fold of the matching overrides onto `{columns, rows, blockSize, gap}`. The result has all four fields. |
| `GradientCards.BlockCount` | wryte-byte/src/Components/gradient/GradientCards.tsx:151 | The block count is `columns * rows` when both are non-negative. It is zero when either is zero, and a negative product counts as zero. |
| `GradientCards.BlockCountWithoutMatches` | wryte-byte/src/Components/gradient/GradientCards.tsx:121-151 | With no matching query the grid renders exactly `columns * rows` blocks. |

## Left out

- Timers, React effect scheduling, state batching and effect re-runs are not modelled. Each timer firing is an explicit method call and time is abstract. Only the per-character `setTimeout` duration is modelled, as `Tick`'s result. `initialDelay` and the 530 ms blink interval are not modelled.
- Props are fixed per instance: `content`, the speed profiles and `blinking` are constants of a `TypedText` object. The component re-reads them on every render, so a same-length `content` change mid-typing could leave entries that are no longer prefixes. The model does not cover that case.
- TypeNextCharacter: a `char` stands for one UTF-16 code unit. The code measures and slices in code units, so it reveals a character outside the Basic Multilingual Plane over two ticks, with a lone high surrogate shown in between. Such characters are not modelled.
- BlockCount: the RangeError that `Array.from` throws for more than 2^32-1 blocks is not modelled.
- Typewriter.TypedText.Tick: the callback's own guard for an index past the end is not in the method body. The delay lookup before it already needs the index to be in range, so the guard cannot fire there. `Typewriter.TypeNextCharacter` keeps the guard.
- The `backspace` speed is declared but never read (`SpeedByTag` shows it has no effect).
- JSX output, CSS classes and `isDarkMode` styling are not modelled. Only the cursor predicate is.
- Floating-point colour math is not modelled: hue drift, brightness, the random animation parameters and the `Diamond` size clamp.
- Visibility detection (IntersectionObserver), `window.innerWidth`, `window.matchMedia` and the resize listener are inputs: the `isVisible` and `width` parameters and the `matches` function. Calling `HandleResize` again stands for another resize event.
- `Math.random()` is a sequence of values in [0, 1) supplied by the caller, one per loop iteration.
- The media-query overrides cover only the four grid fields, as integers. An override that sets a field to `undefined`, overrides of `sizeUnit` or `mediaQueries`, and non-integer sizes are not modelled. `Object.entries` order is the order of the sequence.
- ButtonGrid.tsx, ServiceList.tsx, ColorfulSignup.tsx, SignUp.tsx, the dynamic sign-up components, TextCursor.tsx and the logo components are not part of this model. They are decorative render code, animation-library wrappers or form flags.
