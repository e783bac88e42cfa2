# Filter mode of the translation key browser

The translation tool has an interactive terminal browser over translation
keys. Its filter bar is driven by a small state machine in the `UI` class of
`lib/interactive.py`. The object holds four fields: whether the filter is
being edited, the filter text, the list of filter criteria and the active
criterion. The criteria list is fixed when the object is built; the other
three fields may change on a keystroke read by the main loop, each only on
some keys. The legend at the bottom of the screen switches between the
browsing legend and the filter legend built by `lib/legends.py`.

This project models that state machine and the legend tables in Dafny:

- `legends.dfy` (module `Legends`): the legend entries, `MainEntries(isDarwin)` built
  by appending as the source does, and `FilterEntries()`.
- `filter_mode.dfy` (module `FilterMode`): the state as a value, keystrokes as
  an abstract datatype, the criterion cycling, one keystroke (`Transition`),
  a run of keystrokes that stops on quit (`Run`), the filter box a state shows
  (`View`), and the lemmas about them.
- `interactive.dfy` (module `Interactive`): the class `UI` with the four
  fields, three of them updated in place by `SelectPreviousFilterCriteria`,
  `SelectNextFilterCriteria`, `Step` (one pass of the main loop) and `Loop`
  (the main loop over a finite list of keystrokes), each proved equal to the
  value-level definition.

The loop in `lib/interactive.py:117,130,136,158` names `legends.MAIN` and
`legends.FILTER`, but `lib/legends.py` defines the functions `main()` and
`filter()` and no such attributes. The model follows the evident intent: the
loop's legend is an enum (`MainLegend`, `FilterLegend`) standing for the
lists `MainEntries` and `FilterEntries` build.

The criterion functions look the active criterion up with its first
occurrence, as a list's `index` does. Next and previous are inverse to each
other when the criteria are distinct; `RepeatedCriterionBreaksInverse`
shows a list with a repeated entry where they are not.

## Model

| member | source | states |
|---|---|---|
| Legends.MainEntries | lib/legends.py:3-16 | six entries, seven on Darwin; always begins with `[ENTER]` Edit Translation and ends with `[Q]` Quit; the first five are the fixed browsing entries; `[K]` Copy Key is present iff the platform is Darwin and then sits just before Quit; no key is listed twice |
| Legends.FilterEntries | lib/legends.py:18-23 | exactly three entries in this order: ENTER " Quit and save Filter ", UP-or-DOWN " Change Filter Criteria ", ESC " Quit and clear Filter "; no key twice |
| FilterMode.Initial | lib/interactive.py:11-15 | a fresh state is not filtering, has empty text, keeps the criteria and activates the first one; it satisfies the invariant |
| Interactive.UI.constructor | lib/interactive.py:11-15 | the object's fields equal the initial state and the invariant holds; the criteria list must be non-empty |
| FilterMode.IndexOf | lib/interactive.py:99 | the position found holds the criterion and no earlier position does (first occurrence) |
| FilterMode.IndexOfDistinct | lib/interactive.py:99 | in a list without repeats, the lookup of the element at position k gives k |
| FilterMode.NextCriterion | lib/interactive.py:105-110 | the next criterion is always a member of the criteria |
| FilterMode.PreviousCriterion | lib/interactive.py:98-103 | the previous criterion is always a member of the criteria |
| FilterMode.NextByPosition | lib/interactive.py:105-110 | on any list, repeats included, next is the criterion one position after the first occurrence of the active one, modulo the length |
| FilterMode.PreviousByPosition | lib/interactive.py:98-103 | on any list, repeats included, previous is the criterion one position before the first occurrence of the active one, modulo the length |
| FilterMode.NextAt | lib/interactive.py:105-110 | with distinct criteria, next of position k is position (k+1) mod n |
| FilterMode.PreviousAt | lib/interactive.py:98-103 | with distinct criteria, previous of position k is position (k-1) mod n |
| FilterMode.Wraps | lib/interactive.py:98-110 | on any list, repeats included: next from the last position is the first criterion; previous of the first criterion is the last |
| FilterMode.NextPreviousInverse | lib/interactive.py:98-110 | with distinct criteria, previous after next and next after previous both give back the active criterion |
| FilterMode.RepeatedCriterionBreaksInverse | lib/interactive.py:98-110 | with criteria `a, b, a`, previous after next from `b` does not return to `b` |
| FilterMode.DropLast | lib/interactive.py:139 | trimming removes exactly the last character and leaves empty text unchanged |
| FilterMode.Transition | lib/interactive.py:125-164 | a keystroke keeps the invariant and the criteria list; the mode changes only together with a legend switch, and a switch always shows the legend of the new mode; the outcome is Quit iff the key is Q while browsing; only UP/DOWN while filtering change the criterion; only filtering keys or C change the text |
| FilterMode.LeaveFiltering | lib/interactive.py:127-136 | while filtering, ESC leaves filtering, clears the text and shows the main legend; ENTER does the same but keeps the text; nothing else changes |
| FilterMode.EditFilter | lib/interactive.py:138-152 | while filtering, BACKSPACE drops exactly the last character (no-op on empty text), any other key appends exactly its character, LEFT and RIGHT change nothing |
| FilterMode.ChangeCriterion | lib/interactive.py:141-145 | while filtering, UP selects the previous and DOWN the next criterion and change nothing else |
| FilterMode.Browse | lib/interactive.py:154-164 | while browsing, F enters filtering with the text unchanged and shows the filter legend, C clears the text, Q quits, any other key changes nothing |
| FilterMode.Run | lib/interactive.py:120-164 | a run of keystrokes keeps the invariant, consumes all keys unless a Q while browsing stopped it at that key, and keeps the legend on screen matching the mode |
| FilterMode.RunConcat | lib/interactive.py:120-164 | running two key sequences in turn equals running their concatenation when the first does not quit |
| FilterMode.QuitStops | lib/interactive.py:163-164 | Q while browsing ends the loop at once with the state unchanged; later keys are never read |
| FilterMode.TypingAppends | lib/interactive.py:150-152 | while filtering, typing a text appends exactly that text, command letters included |
| FilterMode.ErasingTrims | lib/interactive.py:138-139 | while filtering, n backspaces remove the last n characters, or all of them if there are fewer |
| FilterMode.TypeThenErase | lib/interactive.py:138-152 | typing a text and then one backspace per character restores the state exactly |
| FilterMode.FilterThenLeave | lib/interactive.py:127-136 | from browsing, F then ENTER restores the state and the main legend; F then ESC only clears the text |
| FilterMode.View | lib/interactive.py:82-96 | the value label is the filter text; the criterion label is the active criterion followed by `=` when the text is non-empty or the mode is filtering, and empty otherwise; the editing colour is used exactly when filtering |
| FilterMode.LabelNamesCriterion | lib/interactive.py:85-91 | the criterion label is non-empty iff the text is non-empty or the mode is filtering, and then it is the active criterion and a final `=` |
| Interactive.UI.UpdateFilterBox | lib/interactive.py:82-96 | the filter box drawn from the fields is `View` of the object's state |
| Interactive.UI.SelectPreviousFilterCriteria | lib/interactive.py:98-103 | only the active criterion changes, to the previous criterion, and the invariant holds |
| Interactive.UI.SelectNextFilterCriteria | lib/interactive.py:105-110 | only the active criterion changes, to the next criterion, and the invariant holds |
| Interactive.UI.Step | lib/interactive.py:125-164 | the new fields and the outcome are exactly `Transition` of the old state and the key |
| Interactive.UI.Loop | lib/interactive.py:112-164 | starting from the main legend, the final fields, legend, number of keys read and quit flag are exactly those of `Run`; starting from browsing, the final legend matches the final mode |

## Left out

- Interactive.UI.constructor: requires a non-empty criteria list, so the error that reading the first element of an empty list raises (lib/interactive.py:15) is not modelled.
- Terminal drawing: colour-pair setup, view construction and layout, `render`, `remove_views` and the bold attribute (lib/interactive.py:17-80). The filter box is modelled as the texts and colour it is given.
- Reading keys: `getch` becomes a list of abstract keystrokes; `Loop` runs over a finite list, where the source loops until Q.
- `exit(0)` on Q is the `Quit` outcome that ends the loop, not a process exit.
- `lib.keys` is not part of this model. Its special keys are symbolic constructors; F, C and Q are assumed to be the codes of `f`, `c` and `q`; every other key is a character, so a special code colliding with a character is not modelled.
- The `Char` case assumes that the key code is a valid character code and not a surrogate. `chr` fails on a code outside the character range, such as the -1 that `getch` returns in no-delay mode. Dafny's `char` cannot hold the surrogate codes that `chr` can produce. Neither case arises in the blocking loop as written.
- `lib.colorpairs` is not part of this model; the two colour pairs of the criterion label are an enum.
- `platform.system()` is a parameter of `Legends.MainEntries` (`isDarwin`).
- The criteria list is shared with the caller in the source; the model holds a copy, so aliasing is not modelled.
- `app.py` only declares a command-line argument and is not modelled.
- The translation catalog reader, diff, patcher and key rename/delete are not part of this model: their source is not among the files modelled.
