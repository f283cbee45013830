# Group-membership panel: name normaliser and hover controller

The widget in `index.tsx` adds a "Group memberships" panel next to a portal's
"Profile and settings" link. The panel lists the signed-in user's groups.
Two parts of it carry logic, and both are modelled here:

- **The normaliser `processUserGroups`** turns raw group identifiers into
  display names. It applies six steps in order:
  1. Drop `.Base`/`.Role` groups.
  2. Apply the `CH.Consumer.RCPS` cross-removal rule.
  3. Strip `ch`/`CH.` and turn the first `.` into a space.
  4. Drop names mentioning `Everyone` or `TermsAndConditions`.
  5. De-duplicate with a `Set`.
  6. Strip `Base`/`Role` and turn the first `.` into a space.

  It is modelled as Dafny functions, one per step, in these files:
  - `user_groups.dfy` holds the steps.
  - `js_strings.dfy` and `seqs.dfy` hold the JavaScript operations the steps use: `includes`, `replace` with a one-character string, `replace` with a global alternation regex, `filter`, `map` and `[...new Set(xs)]`.
  - `user_groups_examples.dfy` works through concrete inputs.
- **The hover controller** is the set of mouse handlers around the shared
  `let hideTimer`. It is modelled in `hover_menu.dfy` as a class:
  - `visible` is the panel lacking its `hide` class.
  - `hideTimer` holds the latest timer handle, with 0 standing for `null`.
  - `pending` holds the scheduled hides that have been neither cleared nor run.
  - A timer running is an explicit `RunTimer(id)` event.
  - DOM lookups become boolean arguments.

Several things one might expect of the widget do not hold for its code;
the model follows the code:

- **Repeated names and `Everyone` can be listed.** One might expect the list
  to hold no duplicate and no `Everyone`/`TermsAndConditions` entry. The code
  filters and de-duplicates *before* its last `Base`/`Role` strip
  (index.tsx:34-40), so neither holds for the output:
  - `RepeatedNameFixture`: `["XBase", "X"]` gives `["X", "X"]`.
  - `EveryoneShownFixture`: `["EveryBaseone"]` gives `["Everyone"]`.

  Both properties are proved where they do hold: after the filter
  (`UpdatedSpec`) and after de-duplication (`UniqueSpec`).
- **The `ch`/`CH.` strip is not a prefix strip.** The regular expression
  `/ch|CH\./g` at index.tsx:30 is case-sensitive and deletes every match
  anywhere, so `Research` becomes `Resear` (`ResearchFixture`).
- **The `CH.Consumer.RCPS` rule changes nothing.** The rule at index.tsx:25-27
  drops `DML.Consumer.Base`, but that name contains `.Base`, so the filter
  at index.tsx:23 has already removed it; the rule never changes the list
  (`ConsumerRuleIsInert`). `["DML.Consumer.Base", "CH.Consumer.RCPS"]` still
  gives `["Consumer RCPS"]` (`ConsumerFixture`).
- **Re-entry cancels only the latest hide.** `showMenu` (index.tsx:84-88)
  clears only the timer held in `hideTimer`. `hideMenuWithDelay`
  (index.tsx:96-101) overwrites that handle without clearing the previous
  one, so after two outside moves a re-entry leaves the older hide armed,
  and it still hides the panel (`StaleHideAfterReentry`).
- **A missing profile link is not silent.** The document `mouseover`
  handler is registered regardless (index.tsx:111), and it dereferences the
  missing link whenever the pointer is outside the panel (index.tsx:106).
  It throws before scheduling anything, which the model renders as
  "nothing scheduled".

## Model

| member | source | states |
|---|---|---|
| `Seqs.Filter` | index.tsx:23 | `filter` keeps only elements satisfying the predicate, every such element of the input survives, and the result is no longer than the input |
| `Seqs.FilterCounts` | index.tsx:23 | every value the predicate keeps occurs in the result exactly as often as in the input; every other value does not occur |
| `Seqs.FilterIsSubsequence` | index.tsx:23 | the filtered list is an order-preserving subsequence of the input |
| `Seqs.FilterKeepsAll` | index.tsx:26 | a filter whose predicate holds everywhere returns its input unchanged |
| `Seqs.Map` | index.tsx:29-32 | `map` keeps the length and puts `f(s[i])` at position `i` |
| `Seqs.FirstIndex` | index.tsx:36 | the returned index holds `x` and no earlier index does |
| `Seqs.DedupFrom` | index.tsx:36 | inserting into a `Set` that already holds `seen` lists at most as many values as were inserted |
| `Seqs.Dedup` | index.tsx:36 | `[...new Set(s)]` is no longer than `s` |
| `Seqs.DedupFromMembers` | index.tsx:36 | the values listed are exactly the values of `s` not already in the set |
| `Seqs.DedupFromDistinct` | index.tsx:36 | no value is listed twice |
| `Seqs.DedupFromOrder` | index.tsx:36 | values are listed in the order of their first occurrence in `s` |
| `Seqs.DedupSpec` | index.tsx:36 | `[...new Set(s)]` holds the same values as `s`, each exactly once, in first-occurrence order |
| `JsStrings.MissingCharExcludes` | index.tsx:23 | `includes` fails when the word contains a character the text lacks |
| `JsStrings.ExcludesTail` | index.tsx:23 | a word not included in `s` neither starts `s` nor occurs in its tail |
| `JsStrings.IndexOf` | index.tsx:31 | the index of the first occurrence of `c`, or -1 exactly when `c` does not occur |
| `JsStrings.ReplaceFirst` | index.tsx:31 | `replace(".", " ")` keeps the length |
| `JsStrings.ReplaceFirstIsSplice` | index.tsx:31 | `replace(".", " ")` is the identity without a `.`, and otherwise changes exactly the first `.` into a space |
| `JsStrings.ReplaceFirstAfter` | index.tsx:39 | in `a + "." + b` with no `.` in `a`, only that `.` is replaced |
| `JsStrings.MatchLength` | index.tsx:30 | the alternation matches at the start exactly when some word is a prefix; it then takes the first word that fits, left to right |
| `JsStrings.RemoveAll` | index.tsx:30 | the global removal never lengthens the text |
| `JsStrings.RemoveAllIsSubsequence` | index.tsx:38 | the removal only deletes characters, keeping the order of the rest |
| `JsStrings.RemoveAllWithoutMatch` | index.tsx:30 | text in which no word occurs comes back unchanged |
| `JsStrings.NoMatchAt` | index.tsx:30 | nothing matches where the first character starts no word |
| `JsStrings.RemoveAllSkipsPrefix` | index.tsx:38 | characters that start no word pass through unchanged ahead of the rest |
| `JsStrings.MatchLengthBeforeJoin` | index.tsx:30 | when every word fitting at the start of `a + b` ends within `a`, the alternation matches the same at the start of `a + b` as of `a` |
| `JsStrings.RemoveAllSplit` | index.tsx:30 | when no word occurrence runs across the join of `a` and `b`, removing from `a + b` is removing from `a` followed by removing from `b` |
| `JsStrings.RemoveAllWord` | index.tsx:38 | a word of the pattern on its own is deleted entirely when no earlier alternative fits at its start |
| `JsStrings.RemoveAllDeletesWord` | index.tsx:30 | a word occurrence anywhere in the text is deleted, and the text on either side is scanned as on its own, when no match runs across its start and no earlier alternative fits there |
| `UserGroups.DropBaseAndRoleSpec` | index.tsx:23 | after the first filter no entry contains `.Base` or `.Role`, every other entry is kept as many times as it occurs in the input, and the survivors are an order-preserving subsequence of the input |
| `UserGroups.ConsumerRuleIsInert` | index.tsx:23-26 | the `CH.Consumer.RCPS` cross-removal never changes the list, because `DML.Consumer.Base` contains `.Base` |
| `UserGroups.RenameSpec` | index.tsx:29-32 | a renamed value is never longer than the original. When the strip leaves nothing, the original is kept. Otherwise the result is the stripped text with only its first `.` turned into a space |
| `UserGroups.RenameWithoutMatch` | index.tsx:30-31 | a non-empty value with no pattern word only has its first `.` replaced |
| `UserGroups.RenameUntouched` | index.tsx:30-31 | a non-empty value with no pattern word and no `.` is not renamed |
| `UserGroups.RenameToStripped` | index.tsx:30-31 | a value whose stripped text is non-empty and has no `.` becomes that text |
| `UserGroups.MappedSpec` | index.tsx:29-32 | the `ch`/`CH.` map keeps one entry per group, each renamed in place |
| `UserGroups.UpdatedSpec` | index.tsx:34 | after the `Everyone`/`TermsAndConditions` filter no entry contains either word; every mapped name containing neither is kept as many times as it occurs, in order |
| `UserGroups.UniqueSpec` | index.tsx:36 | the de-duplicated list has no repeats, the same values as the filtered list, and first-occurrence order |
| `UserGroups.ProcessShape` | index.tsx:36-40 | the output has exactly as many entries as the de-duplicated list and no more than the input; entry `i` is the `Base`/`Role` renaming of de-duplicated entry `i` |
| `UserGroups.OptionsKeepAll` | index.tsx:23-26 | with no `.Base`/`.Role` group, the first two steps keep the input as it is |
| `UserGroups.AllHiddenListsNothing` | index.tsx:34-40 | when every renamed group mentions a hidden word, nothing is listed |
| `UserGroups.KeptWithoutDot` | index.tsx:23 | a name without `.` is never dropped by the first filter |
| `UserGroups.KeptWithoutBl` | index.tsx:23 | a name without `B` and `l` is never dropped by the first filter |
| `UserGroups.ShownWithoutET` | index.tsx:34 | a name without `E` and `T` passes the hidden-word filter |
| `UserGroups.StripChDotOnly` | index.tsx:30-31 | without `h` and `H`, the `ch`/`CH.` step only replaces the first `.` |
| `UserGroups.StripBaseRoleDotOnly` | index.tsx:38-39 | without `B` and `l`, the `Base`/`Role` step only replaces the first `.` |
| `UserGroups.StripChUntouched` | index.tsx:30-31 | a non-empty name without `.`, `h`, `H` is not renamed by the `ch`/`CH.` step |
| `UserGroups.StripBaseRoleUntouched` | index.tsx:38-39 | a non-empty name without `.`, `B`, `l` is not renamed by the `Base`/`Role` step |
| `UserGroups.BaseDeletionJoins` | index.tsx:38-39 | deleting a `Base` between two plain pieces joins them, creating text the earlier filters never saw |
| `UserGroupsExamples.EmptyFixture` | index.tsx:18-41 | no groups give no names |
| `UserGroupsExamples.ProcessSingle` | index.tsx:23-40 | one group that passes both filters gives its renamed name |
| `UserGroupsExamples.ProcessPair` | index.tsx:23-40 | two groups that pass both filters give two names, or one when the `ch`/`CH.` step made them equal |
| `UserGroupsExamples.ProcessPairHidden` | index.tsx:23-40 | two groups hidden once renamed give no names |
| `UserGroupsExamples.DmlConsumerBaseDropped` | index.tsx:23 | `DML.Consumer.Base` is a `.Base` group |
| `UserGroupsExamples.ConsumerRcpsKept` | index.tsx:23 | `CH.Consumer.RCPS` passes the first filter |
| `UserGroupsExamples.DropConsumerGroups` | index.tsx:23-26 | the first two steps turn `[DML.Consumer.Base, CH.Consumer.RCPS]` into `[CH.Consumer.RCPS]` |
| `UserGroupsExamples.StripChConsumerPrefix` | index.tsx:30 | the scan deletes the leading `CH.` of `CH.Consumer.RCPS` |
| `UserGroupsExamples.StripChConsumerRest` | index.tsx:30 | nothing of `Consumer.RCPS` matches `ch`/`CH.` |
| `UserGroupsExamples.ReplaceDotConsumer` | index.tsx:31 | `Consumer.RCPS` becomes `Consumer RCPS` |
| `UserGroupsExamples.StripChConsumer` | index.tsx:29-32 | `CH.Consumer.RCPS` is renamed `Consumer RCPS` |
| `UserGroupsExamples.KeepPlainName` | index.tsx:34-40 | `Consumer RCPS` and `a b c d` are shown and not renamed again |
| `UserGroupsExamples.ConsumerFixture` | index.tsx:18-41 | `["DML.Consumer.Base", "CH.Consumer.RCPS"]` gives `["Consumer RCPS"]` |
| `UserGroupsExamples.EveryoneHidden` | index.tsx:34 | `Everyone` is hidden |
| `UserGroupsExamples.EveryoneMapped` | index.tsx:23-32 | `Everyone` passes the first filter and is not renamed |
| `UserGroupsExamples.TermsMapped` | index.tsx:23-32 | `X.TermsAndConditions` passes the first filter and becomes `X TermsAndConditions` |
| `UserGroupsExamples.TermsHidden` | index.tsx:34 | `X TermsAndConditions` is hidden |
| `UserGroupsExamples.HiddenPair` | index.tsx:18-41 | `["Everyone", "X.TermsAndConditions"]` gives no names |
| `UserGroupsExamples.HiddenFixture` | index.tsx:18-41 | `["Everyone", "X.TermsAndConditions"]` gives `[]` |
| `UserGroupsExamples.UpperChX` | index.tsx:23-32 | `CH.X` is kept and renamed `X` |
| `UserGroupsExamples.LowerChX` | index.tsx:23-32 | `chX` is kept and renamed `X` |
| `UserGroupsExamples.PlainX` | index.tsx:23-40 | `X` is kept, shown and never renamed |
| `UserGroupsExamples.MergeFixture` | index.tsx:18-41 | `["CH.X", "chX"]` gives `["X"]`: two groups merge after renaming |
| `UserGroupsExamples.ResearchRemoved` | index.tsx:30 | the global scan deletes the `ch` at the end of `Research` |
| `UserGroupsExamples.ResearchStripped` | index.tsx:29-32 | `Research` is renamed `Resear` |
| `UserGroupsExamples.ResearchFixture` | index.tsx:30 | the lower-case `ch` inside a word is deleted too |
| `UserGroupsExamples.XBaseMapped` | index.tsx:23-34 | `XBase` is kept, not renamed by the first strip, and shown |
| `UserGroupsExamples.XBaseStripped` | index.tsx:38-39 | the last strip renames `XBase` to `X` |
| `UserGroupsExamples.RepeatedNames` | index.tsx:18-41 | `["XBase", "X"]` gives `["X", "X"]` |
| `UserGroupsExamples.RepeatedNameFixture` | index.tsx:36-40 | the output can repeat a name: `["XBase", "X"]` gives `["X", "X"]` |
| `UserGroupsExamples.EveryBaseoneNotEveryone` | index.tsx:34 | `EveryBaseone` does not contain `Everyone` |
| `UserGroupsExamples.EveryBaseoneMapped` | index.tsx:23-34 | `EveryBaseone` is kept, not renamed by the first strip, and shown |
| `UserGroupsExamples.EveryBaseoneStripped` | index.tsx:34-39 | the last strip renames `EveryBaseone` to `Everyone`, a name the hidden-word filter would have dropped |
| `UserGroupsExamples.EveryoneShownFixture` | index.tsx:34-40 | the output can list a hidden word: `["EveryBaseone"]` gives `["Everyone"]` |
| `UserGroupsExamples.DottedOnceMapped` | index.tsx:23-32 | `a.b.c.d` is kept and renamed `a b.c.d` |
| `UserGroupsExamples.DottedOnceFinal` | index.tsx:34-40 | `a b.c.d` is shown and renamed `a b c.d` |
| `UserGroupsExamples.DottedTwiceMapped` | index.tsx:23-32 | `a b c.d` is kept and renamed `a b c d` |
| `UserGroupsExamples.NotIdempotentFixture` | index.tsx:18-41 | applying the normaliser to its own output can change it again: `["a.b.c.d"]` gives `["a b c.d"]`, and that gives `["a b c d"]` |
| `HoverMenu.Controller.constructor` | index.tsx:75 | `hideTimer` starts `null` (line 75) and nothing is scheduled; the panel starts hidden because it is rendered with `className="hide"` (index.tsx:140, and index.tsx:51 for the menu built in `createDropdownMenu`) |
| `HoverMenu.Controller.ShowMenu` | index.tsx:84-88 | the panel becomes visible and exactly the hide held in `hideTimer` is cleared; every hide still waiting is older |
| `HoverMenu.Controller.HideMenuImmediately` | index.tsx:90-94 | the hide held in `hideTimer` is cleared and the panel is hidden |
| `HoverMenu.Controller.HideMenuWithDelay` | index.tsx:96-101 | a hide is scheduled under a fresh id that overwrites `hideTimer`, and earlier hides stay armed |
| `HoverMenu.Controller.HideMenuIfOutside` | index.tsx:103-109 | a hide is scheduled exactly when the target is outside the panel and the link exists and does not contain it; otherwise nothing changes |
| `HoverMenu.Controller.RunTimer` | index.tsx:98-100 | a scheduled hide that was neither cleared nor run hides the panel; a cleared one does nothing |
| `HoverMenu.Controller.Cleanup` | index.tsx:124-131 | unmount clears only the hide held in `hideTimer` |
| `HoverMenu.StaleHideAfterReentry` | index.tsx:84-109 | after two outside moves and a re-entry the panel is visible, and the first move's hide still hides it |
| `HoverMenu.SingleHideCancelledByReentry` | index.tsx:84-109 | after one outside move and a re-entry, that move's hide no longer hides the panel |
| `HoverMenu.MovesInsideScheduleNothing` | index.tsx:103-109 | moves over the panel or the link schedule no hide |
| `HoverMenu.ClickHides` | index.tsx:90-94 | a click hides the panel whatever number of hides is waiting |
| `HoverMenu.HideAfterCleanup` | index.tsx:124-131 | after two outside moves, unmount leaves the older hide armed, and it hides the panel |

## Left out

- The non-array guard (index.tsx:19-21): a `seq<string>` is always a list.
- React rendering, MUI components, `ThemeProvider` and the JSX list (index.tsx:134-164): presentation only.
- The `useRef`/`useEffect` lifecycle, the `injected` guard and the `admin` URL check (index.tsx:73-82, 122, 132-136). These are framework glue and a host read. Under the `admin` guard no controller exists at all.
- `createDropdownMenu`, `appendUserGroupsToMenu` and `attachMenuListeners` (index.tsx:42-70): DOM construction and styling.
- Listener registration and removal (index.tsx:111, 116-118, 125-129). The handlers are called directly as events. `Cleanup` models only the timer clear.
- `createExternalRoot` (index.tsx:167-178): a wrapper over `react-dom/client`.
- Real timing of `setTimeout(…, 100)`: a timer running is the `RunTimer` event. Ids are handed out by a counter standing for the host's allocator.
- HoverMenu.Controller.ShowMenu: the clause that every hide still waiting is older than `hideTimer` (also in `HideMenuImmediately`) rests on the counter handing out increasing ids; a browser promises only a positive id not in use, so with a real host only `pending == old(pending) - {old(hideTimer)}` is promised.
- HoverMenu.Controller.HideMenuIfOutside: the `TypeError` thrown when the profile link is missing is modelled as "nothing scheduled"; the exception itself is not modelled.
- The panel element is assumed present whenever a handler runs. The optional chaining in the handlers (`dropdownMenu?.`) never has an effect in the model.
- UserGroupsExamples.HiddenFixture: the second name is written as the concatenation `"X" + ['.'] + "TermsAndConditions"`, the same string as `X.TermsAndConditions`.
