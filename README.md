# cssTransit sequencer in Dafny

A model of the `transit` object of the cssTransit jQuery plugin
(`source/animate.js`). The object plays a list of CSS keyframes ("frames") on
a set of elements. It keeps:

- a cursor over the frames and the index of the last frame performed;
- a few flags: direction, iterate mode, disabled callbacks, speed, loop
  limit and force;
- one callback slot per direction;
- for every frame in flight, the property names whose `transitionend` it is
  still waiting for.

Four pieces are modelled, one module each, on top of a small module of
JavaScript values (`Js`: values, insertion-ordered plain objects,
truthiness, `split`/`join`, ASCII case).

- **`Transit` and `TransitObject`: the sequencer.** `Transit` is the
  specification. It has a `Sequencer` value with one field per piece of
  object state, and one function per operation: `_performTransition`,
  `_transitPrivateCallback`, `_onTransitionEnd`, `play`, `forward`,
  `backward`, `loop`, `setOptions`, `createFrame`, `removeOption`,
  `setSpeed`, `force`. The lemmas about the sequencer are proved on these
  functions. `TransitObject.Transit` is the object itself: a class whose
  fields the methods update in place. Each method's postcondition says the
  new state is exactly what the specification function computes from the
  old state, so every lemma holds of the object too. The DOM becomes two
  inputs:
  - the first element's inline style, a map from property name to text;
  - the set of style names the engine supports, held by the shared
    resolver.

  A `transitionend` event for frame `i` and property `p` is a call of
  `Complete(i, p)`. A user function is a value `Fn(id)`; calling it appends
  `id` to the `invoked` log.
- **`Options`: frame options.**
  - `_checkOption`, the validation table;
  - `_getDefaultOptions`, which moves a frame's option keys into its
    `_options` object;
  - `_getTransitionObject`, which fills `value, duration, timing, delay`
    positionally from a space-separated string or an array, then from the
    options, then from the instance defaults.
- **`VendorPrefix`: the vendor-prefix resolver.** `vendorPrefix.get` tries
  the name the engine supports as written, then its camel-cased form, then
  each browser prefix. It caches every answer, and its first prefixed hit
  narrows the prefix list to that prefix. `_toCamelCase` is defined by a
  single character scan. `CamelCaseBySplit` proves, for every input, that
  the scan equals the source's split / capitalise / join.
- **`TransitionStyle`: timing arithmetic and list merging.**
  `_computeDuration` works over exact reals. The merge in
  `_setTransitionStyle` puts the element's earlier entries, in reverse
  order, ahead of the new ones. A literal `all` entry stops the merge for
  that list and every later one. This is specified as a function and
  computed by a method with the source's loops.

Quirks of the code the model keeps:

- **`loop(n)` makes 2n + 1 moves, not 2n.** The call itself moves, and the
  loop ends only once the counter is strictly above `2n`
  (`Transit.LoopLimitMoves`).
- **`loop(false)` keeps the present limit.** It does not make the loop
  unbounded.
- **`loop` goes on with zero frames.** Only exactly one frame stops it.
- **The no-new-value branch of `_performTransition` is kept but cannot be
  reached.** `_getDefaultOptions` always leaves an `_options` entry in the
  frame. Against a style without an `_options` property, the filter never
  drops that entry, so the branch never runs (`Transit.Prepared`,
  `Transit.PerformListens`).
- **`force(false)` throws and changes nothing.** It writes through the
  undefined `this.Flags`. Any other argument turns `force` on.
- **A falsy `timing` is stored as the literal `easing`.** `setOptions`
  stores this replacement.
- **A property that resolves to another name stalls its frame.**
  `_performTransition` pushes the resolved name, then reads
  `transitions[name]`, which exists only when that name is itself one of the
  frame's keys. A prefixed answer such as `WebkitTransform` for `transform`,
  or no answer at all, makes that read throw. The frame then keeps a
  pending list that ends with that name, and it gets no listener, so no
  `transitionend` ever completes it (`Transit.PendNamesShape`,
  `Transit.PrefixedNameStalls`, `Transit.PerformListens`).
- **`filter` and `fill` never resolve.** The resolver's cache is an array.
  For a name that `Array.prototype` or `Object.prototype` defines, the
  cache lookup finds the inherited member. The resolver returns that
  member, not a style name, and caches nothing
  (`VendorPrefix.InheritedNamesUnresolved`).
- **`setSpeed` tests its argument with loose `==`.** `0`, `false`, blank
  text, `"0"` and `[]` are ignored. `null` and `undefined` are stored
  (`Transit.SetSpeedStoresNull`), and the duration arithmetic then divides
  by them.

## Model

| member | source | states |
|---|---|---|
| Options.CheckOption | source/animate.js:400-438 | rejects exactly a `callback` that is not a function; any other key outside the five is kept; a falsy duration, delay or timing is replaced by `1s`, `0` or `easing`, and an iterate outside once/always by `once` |
| Options.StoredIdempotent | source/animate.js:878-888 | checking a stored value again stores the same value |
| Options.StoredIsValid | source/animate.js:878-888 | a stored callback is a function, a stored duration or timing is truthy, a stored iterate is `once` or `always` |
| Options.MoveOrDefault | source/animate.js:456-478 | a truthy frame entry moves into `_options` and leaves the frame; a falsy one stays, and `_options` keeps its truthy value or takes the default |
| Options.DefaultOptions | source/animate.js:441-489 | fails exactly when `_options` is null or a primitive value, which refuse property writes in strict code; otherwise, an array or a function included, the frame's `_options` is the options object it returns |
| Options.Finish | source/animate.js:480-488 | `iterate` leaves the frame and is normalised to once/always in `_options` |
| Options.DefaultOptionsKeepsProperties | source/animate.js:441-489 | every key other than the option keys is left as it was; `iterate` is removed and normalised, a valid one kept |
| Options.DefaultOptionsMovesCallback | source/animate.js:449-454 | a function callback moves into `_options`; anything else stays in the frame and `_options` keeps its earlier callback |
| Options.DefaultOptionsMovesTiming | source/animate.js:456-478 | a truthy duration, delay or timing moves into `_options`; a falsy one stays and `_options` keeps its earlier truthy value or takes the instance default |
| Options.DefaultOptionsComplete | source/animate.js:456-478 | afterwards `_options` always holds a truthy duration and a truthy timing |
| Options.TransitionObjectOfWords | source/animate.js:275-299 | four non-empty space-free words joined with spaces come back as value, duration, timing and delay |
| Options.TransitionObjectFallbacks | source/animate.js:285-296 | a truthy positional entry fills its slot; a falsy one takes the option, then the default; the duration is always truthy |
| Options.ExtraEntriesIgnored | source/animate.js:285-289 | array entries after the fourth change nothing |
| Js.LooseZeroExamples | source/animate.js:696 | `false`, `""`, `[]`, `[null]` and `["0"]` equal zero; `null`, `undefined`, `[false]` and `[0, 0]` do not |
| Js.ZeroTextExamples | source/animate.js:696 | text is trimmed and may carry a sign: `" 0.0 "` and `"-0"` equal zero, `"."` and `"1"` do not |
| TransitionStyle.ComputeDuration | source/animate.js:497-518 | the duration in milliseconds divided by a positive speed, or multiplied by the magnitude of a negative one |
| TransitionStyle.SpeedExamples | source/animate.js:497-518 | `1s` is 500ms at speed 2 and 2000ms at speed -2; `250ms` at speed 1 is 250ms |
| TransitionStyle.NegativeSpeedAsymmetry | source/animate.js:511-515 | speed `-s` gives `s*s` times the duration of speed `s` |
| TransitionStyle.FasterIsShorter | source/animate.js:511-515 | a larger positive speed never gives a longer non-negative duration |
| TransitionStyle.MergeOneShape | source/animate.js:254-260 | a merged list ends with exactly its new entries, and the merge stops exactly when the earlier entries hold `all` |
| TransitionStyle.PrependEarlier | source/animate.js:254-260 | the loop that unshifts earlier entries computes the one-list merge, stopping at `all` |
| TransitionStyle.MergeTransitionLists | source/animate.js:250-262 | the loops over the four lists compute the list-by-list merge |
| TransitionStyle.MergeAt | source/animate.js:250-262 | each list is merged up to the first list whose earlier entries hold `all`, and keeps only its new entries after it |
| TransitionStyle.MergeKeepsNewEntries | source/animate.js:250-262 | the merge keeps the number of lists, and every list ends with its new entries |
| TransitionStyle.MergeWithoutAll | source/animate.js:254-260 | without `all`, every list is its earlier entries reversed ahead of its new ones |
| TransitionStyle.MergeStopsAtAll | source/animate.js:258 | the first `all` cuts its own list at that entry and leaves every later list with its new entries alone |
| VendorPrefix.CapitalizeAll | source/animate.js:126-131 | every piece has its first character upper-cased, none is dropped |
| VendorPrefix.CamelCaseBySplit | source/animate.js:121-133 | the character scan equals split on `-`, capitalise every piece but the first, join with nothing |
| VendorPrefix.NoHyphenUnchanged | source/animate.js:121-133 | a name without a hyphen is its own camel case |
| VendorPrefix.CamelCaseOfSegments | source/animate.js:125-132 | hyphen-joined segments keep the first segment, capitalise every later one and lose the hyphens |
| VendorPrefix.CamelCaseHasNoHyphen | source/animate.js:121-133 | a camel-cased name holds no hyphen |
| VendorPrefix.FirstSupported | source/animate.js:93-105 | the first prefix whose prefixed name is supported, with no supported one before it |
| VendorPrefix.Lookup | source/animate.js:66-113 | a truthy cached answer is returned with no change of state; a name the cache array inherits a member under gives no name and no change; otherwise the answer is cached |
| VendorPrefix.InheritedNamesUnresolved | source/animate.js:53-73 | on a fresh resolver of an ECMAScript 2023 engine `filter` and `fill` resolve to no name, whatever the engine supports |
| VendorPrefix.InheritedHitPersists | source/animate.js:53-73 | an inherited hit changes no state, so the same name hits again |
| VendorPrefix.LookupOrder | source/animate.js:77-106 | the name as written, then a hyphenated name whose camel form is supported, then the first supported prefixed name; a prefixed hit among several prefixes narrows them to that one, and a miss changes no prefix |
| VendorPrefix.ResolvedNameSupported | source/animate.js:66-113 | an answer is a supported name, or the written name whose camel form is supported, when the cache holds only such answers |
| VendorPrefix.PrefixesNarrow | source/animate.js:96-103 | the prefix list only shrinks, and a narrowed list is the single prefix that just answered |
| VendorPrefix.LookupCached | source/animate.js:70-73 | asking again after a truthy answer returns the same answer and changes nothing |
| VendorPrefix.Resolver.constructor | source/animate.js:47-58 | a new resolver has the four browser prefixes, an empty cache and the engine's inherited array members |
| VendorPrefix.Resolver.Get | source/animate.js:66-113 | the loop over prefixes leaves the resolver in the state, and returns the answer, that the lookup specifies, inherited hits included |
| Transit.Normalize | source/animate.js:337-342 | text is lower-cased; a falsy value or positive number is kept; any other value throws |
| Transit.WithoutOptions | source/animate.js:366-369 | the kept keys without `_options` |
| Transit.Prepared | source/animate.js:332-349 | fails exactly when `_getDefaultOptions` fails; against a style without `_options`, a filter that runs to the end keeps at least one key |
| Transit.Perform | source/animate.js:313-333 | no flag, frame count or pending list is lost; against a plain style no control field changes and `_lastIndex` becomes the cursor exactly when the frame exists |
| Transit.PerformFrame | source/animate.js:330-392 | the same, once `_lastIndex` is set |
| Transit.NothingNew | source/animate.js:352-357 | `_onTransitionEnd()` then the frame callback keep every flag and pending list |
| Transit.PendNames | source/animate.js:366-375 | at most one pended name per key that starts a transition |
| Transit.PendNamesShape | source/animate.js:366-375 | the loop runs to the end exactly when every pushed name is a kept key, and then pushes one name per key; otherwise it stops right after the first name that is not |
| Transit.PendNamesAsWritten | source/animate.js:366-375 | keys supported as written, with no other truthy cached answer, resolve to themselves and the loop runs to the end |
| Transit.PrefixedNameStalls | source/animate.js:371-375 | `transform` on an engine that knows only `WebkitTransform`, and has no array member of that name, pends `WebkitTransform` and stops |
| Transit.Listen | source/animate.js:359-392 | the frame gets a fresh pending list of at most one name per kept key other than `_options`, and at most gains a listener; nothing else but the resolver changes |
| Transit.ListenShape | source/animate.js:359-392 | the frame listens exactly when the loop over its keys runs to the end, with one pending name per key; otherwise it gets no listener and its list ends with the name that could not be read |
| Transit.IndexOf | source/animate.js:602-605 | the first position of the property in the pending list |
| Transit.OnTransitionEnd | source/animate.js:550-586 | advancing or firing keeps every flag and pending list |
| Transit.EndOfRun | source/animate.js:577-582 | firing the direction's callback keeps every flag and pending list |
| Transit.CompleteOnce | source/animate.js:607-614 | the `once` branch keeps every flag and pending list |
| Transit.Complete | source/animate.js:594-623 | a completion signal keeps every flag and pending list |
| Transit.Loop | source/animate.js:810-849 | a loop call keeps every flag and pending list |
| Transit.RemoveFirstOne | source/animate.js:605 | the splice removes exactly one occurrence of the property |
| Transit.CompleteUnmatched | source/animate.js:602 | a signal the frame is not waiting for changes nothing |
| Transit.CompleteOnceNotLast | source/animate.js:607-614 | in `once` mode a signal that leaves entries pending only shrinks the list by that one entry: no advance, no callback, the listener stays |
| Transit.CompleteOnceLast | source/animate.js:607-621 | in `once` mode the signal that empties the list runs `_onTransitionEnd` then the frame callback unless callbacks are disabled, and detaches when no new pending list replaced it and the callback did not throw |
| Transit.CompleteEverySignal | source/animate.js:615-617 | in any other mode every matching signal removes one entry and nothing advances |
| Transit.CompleteEverySignalDetaches | source/animate.js:615-621 | in that mode the callback fires on every matching signal, and the listener goes exactly when the list becomes empty and the callback did not throw |
| Transit.OnTransitionEndNoDirection | source/animate.js:558-572 | a null direction changes no state |
| Transit.OnTransitionEndAdvances | source/animate.js:574-576 | when the neighbouring frame exists the cursor moves by the step (+1 play and forward, -1 backward) and that frame is performed; no callback runs |
| Transit.OnTransitionEndFires | source/animate.js:577-581 | at the end of a run a function in the direction's slot is called and the slot becomes null; cursor, frames and pending lists stay |
| Transit.OnTransitionEndFiresOnce | source/animate.js:577-581 | a second end of the same run calls nothing more |
| Transit.OnTransitionEndIgnoresNonFunction | source/animate.js:578 | a slot holding anything but a function changes nothing |
| Transit.PlayMoves | source/animate.js:731-745 | `play` raises the cursor by one only when it equals `_lastIndex` and a next frame exists, and replaces its callback only with a truthy one |
| Transit.ForwardMoves | source/animate.js:765-772 | `forward` moves the cursor by exactly +1, even out of range, overwrites its slot, and records the frame only when it exists |
| Transit.BackwardMoves | source/animate.js:752-758 | `backward` moves the cursor by exactly -1, even out of range, overwrites its slot, and records the frame only when it exists |
| Transit.FilterKeepsOptions | source/animate.js:334-349 | against a plain style the filter never deletes `_options` from the frame |
| Transit.FilterKeepsOptionsKey | source/animate.js:334-349 | so a filter that runs to the end keeps the `_options` key |
| Transit.FilterKeepsFrameKeys | source/animate.js:334-349 | every key the filter keeps is a key of the frame |
| Transit.FilterForced | source/animate.js:344-347 | with `force` nothing is deleted and every key is kept |
| Transit.PerformMissingFrame | source/animate.js:325-327 | a missing frame changes nothing, `_lastIndex` included |
| Transit.PerformListens | source/animate.js:313-392 | a perform that gets through the filter keeps the frame's `_options` and pends the resolved names of its kept keys; it listens on the frame, with one name per kept key other than `_options`, exactly when every name is a kept key, and otherwise stops at the first that is not, with no listener |
| Transit.LoopSingleFrame | source/animate.js:813-815 | with one frame `loop` does nothing |
| Transit.LoopFinish | source/animate.js:818-829 | the first call that finds the counter past the limit resets both, calls a function loop callback once, clears it, and moves nothing |
| Transit.LoopStep | source/animate.js:831-848 | any other call sets the limit (twice a non-zero argument, null for zero, unchanged for `false`), moves one frame towards the far end with the continuation, and counts only while a limit is set |
| Transit.LoopCallsCount | source/animate.js:838-847 | each continuation call below the limit counts exactly one and keeps the limit |
| Transit.LoopLimitMoves | source/animate.js:810-849 | `loop(n)` on a fresh counter goes on for the call and 2n continuation calls, and the next continuation call ends the loop |
| Transit.SetOptionRejected | source/animate.js:878-882 | a rejected value stores nothing; at most the first frame is created |
| Transit.SetOptionWrites | source/animate.js:870-891 | an accepted value, or its replacement, is stored under its key in the addressed frame (an omitted or zero frame is the current one); no other key, frame or field changes |
| Transit.SetOptionMissingFrame | source/animate.js:888 | a frame index out of range throws and stores nothing |
| Transit.SetOptionsOneFrame | source/animate.js:863-868 | an object of options changes only the addressed frame and never throws when it exists |
| Transit.SetOptionsWritesKey | source/animate.js:858-891 | over entries with distinct keys, each key ends up holding the value the table stores for it; a rejected key or one not among the entries keeps its earlier value |
| Transit.SetOptionsMissingFrame | source/animate.js:858-891 | entries sent to a frame that does not exist throw exactly when the table accepts one of them, and change nothing |
| Transit.CreateFrameAppends | source/animate.js:661-670 | one frame is appended and nothing but the frames changes, whenever a frame exists or the cursor is 0 (a first frame, whose falsy index 0 sends the options to the cursor); the earlier frames stay, and the new one holds each accepted option (or its replacement) under its key and nothing under a rejected or absent key |
| Transit.CreateFrameStrayCursor | source/animate.js:661-670 | on an object with no frames whose cursor is not 0, the new frame stays empty and the call throws exactly when one option is accepted |
| Transit.RemoveOptionDeletes | source/animate.js:899-909 | a truthy entry is deleted, a falsy one left, no other key or frame changes; a missing frame throws |
| Transit.SetSpeedKeepsNonZero | source/animate.js:695-701 | the stored speed is never loosely equal to zero; an argument loosely equal to zero changes nothing, any other is stored as it is, and nothing else changes |
| Transit.SetSpeedNumeric | source/animate.js:695-701 | a non-zero numeric speed stays a non-zero number under numeric arguments, so the duration arithmetic has a non-zero divisor |
| Transit.SetSpeedStoresNull | source/animate.js:695-701 | `null` and `undefined` are stored as the speed |
| Transit.ForceOnlyEnables | source/animate.js:708-715 | only `false` throws, leaving the state as it was; otherwise `force` is on; nothing else changes |
| Transit.SetOptionsNoIndex | source/animate.js:875 | `setOptions` without a frame index writes where the falsy index 0 does, to the cursor |
| Transit.NewIsCreateFrame | source/animate.js:203-206 | the constructor's `setOptions(options)` ends in the state `createFrame(options)` gives on the fresh object |
| Transit.NewHasOneFrame | source/animate.js:152-218 | a new object with options has one frame, which is current, and the initial flags; the frame holds each accepted option (or its replacement) under its key and nothing under a rejected or absent key |
| TransitObject.Prepare | source/animate.js:332-349 | `_getDefaultOptions` and the filter, as specified |
| TransitObject.FilterKeys | source/animate.js:334-349 | the loop over the frame's keys computes the specified filter, stopping at a value that throws |
| TransitObject.FilterKey | source/animate.js:335-347 | one key of that loop: stop, delete or keep |
| TransitObject.Transit.constructor | source/animate.js:152-218 | the initial state with the constructor's options applied |
| TransitObject.Transit.SetOption | source/animate.js:870-891 | `setOptions(key, value, frame)` as specified |
| TransitObject.Transit.SetOptions | source/animate.js:858-891 | the entries of an object in order, up to the first that throws |
| TransitObject.Transit.Callback | source/animate.js:722-724 | `setOptions('callback', cb)` |
| TransitObject.Transit.CreateFrame | source/animate.js:661-670 | `createFrame` as specified |
| TransitObject.Transit.RemoveOption | source/animate.js:899-909 | `removeOption` as specified |
| TransitObject.Transit.SetSpeed | source/animate.js:695-701 | `setSpeed` as specified |
| TransitObject.Transit.Force | source/animate.js:708-715 | `force` as specified |
| TransitObject.Transit.DisableCallback | source/animate.js:676-679 | only the disable flag changes, to true |
| TransitObject.Transit.EnableCallback | source/animate.js:685-688 | only the disable flag changes, to false |
| TransitObject.Transit.Perform | source/animate.js:313-397 | `_performTransition` as specified |
| TransitObject.Transit.PerformFrame | source/animate.js:330-392 | `_performTransition` after `_lastIndex` is recorded |
| TransitObject.Transit.Dispatch | source/animate.js:349-392 | the filtered frame is written back, then the early stop, the no-new-value branch or the listener |
| TransitObject.Transit.NothingNew | source/animate.js:352-357 | the no-new-value branch as specified |
| TransitObject.Transit.ResolveAll | source/animate.js:246-248 | the resolver's `get` of each name in turn |
| TransitObject.Transit.PendAll | source/animate.js:366-375 | the loop over the kept keys pushes the names, and stops, as specified |
| TransitObject.Transit.Listen | source/animate.js:359-392 | the fresh pending list and, when the loop ran to the end, the listener, as specified |
| TransitObject.Transit.OnTransitionEnd | source/animate.js:550-586 | `_onTransitionEnd` as specified |
| TransitObject.Transit.EndOfRun | source/animate.js:577-582 | the end of a run as specified |
| TransitObject.Transit.Complete | source/animate.js:594-623 | `_transitPrivateCallback` as specified |
| TransitObject.Transit.Splice | source/animate.js:605 | exactly the first occurrence leaves the pending list |
| TransitObject.Transit.Respond | source/animate.js:607-617 | the `once` branch or the every-signal callback |
| TransitObject.Transit.CompleteOnce | source/animate.js:608-614 | the `once` branch as specified |
| TransitObject.Transit.Detach | source/animate.js:619-621 | the listener goes exactly when the list is empty and the callback did not throw |
| TransitObject.Transit.Play | source/animate.js:731-745 | `play` as specified |
| TransitObject.Transit.StartPlay | source/animate.js:733-741 | direction, callback and skipped frame of `play` |
| TransitObject.Transit.SkipPerformed | source/animate.js:737-741 | the cursor passes a just-performed frame when a next one exists |
| TransitObject.Transit.Forward | source/animate.js:765-772 | `forward` as specified |
| TransitObject.Transit.Backward | source/animate.js:752-758 | `backward` as specified |
| TransitObject.Transit.LoopMove | source/animate.js:837-845 | forward before the last frame, backward otherwise, with the continuation |
| TransitObject.Transit.Loop | source/animate.js:810-849 | `loop` as specified |
| TransitObject.Transit.EndLoop | source/animate.js:818-829 | the finished loop as specified |
| TransitObject.Transit.FireLoopCallback | source/animate.js:823-826 | a function loop callback is called once and cleared |
| TransitObject.Transit.LoopOn | source/animate.js:831-848 | the going-on loop as specified |
| TransitObject.Transit.StartLoop | source/animate.js:831-835 | the loop callback and the new limit |
| TransitObject.Transit.CountRound | source/animate.js:847 | the counter rises by one only while a limit is set |

## Left out

- The module wrapper and the jQuery presence check (source/animate.js:1-30): module loading, not logic.
- The DOM: the resolver's test element, the `css` reads and writes, the delayed write of the new values and `_checkDefaultValues`. These are replaced by the inline-style map and the supported-name set; the values `_performTransition` writes are not modelled.
- The transition declaration that `Perform` hands to `_setTransitionStyle` is not built. `Perform` makes the four resolver calls, and the merge of the lists is modelled separately in `TransitionStyle`.
- `on`/`off` event wiring and `setTimeout`: a `transitionend` is the call `Complete(i, p)`, a listener is membership of `listening`.
- `find`, `siblings` and `closest`: thin wrappers over jQuery selection.
- `pause`, `stop`, `resume`, `rewind` and `end`: empty stubs.
- An empty element set: the constructor and `_performTransition` stop with a logged error then; every model state has elements.
- Console output and the instance id counter; a reported error is modelled as the state at the point of the throw.
- `parseFloat` and the numeric regular expression: numbers are exact reals, a duration is an amount and a unit, and text that looks numeric stays text.
- Transit.Normalize: an array value always throws, as it has no `toLowerCase`; the source first tests its comma-joined text against the numeral pattern, so a one-item array such as `[1]` or `["2.5"]` is turned into a number instead.
- Transit.Unchanged: compares text case-insensitively and never finds a number or a falsy non-text value equal to the present text, where the source's loose `==` compares them numerically, so that `5` matches a style `"5"` and `false` or `0` matches `"0"` and the entry is deleted there.
- Transit.Loop: the limit is an integer; the source doubles any truthy argument, so `loop(1.5)` sets 3, `loop(true)` 2 and `loop("2")` 4, which the model cannot express.
- Case conversion is ASCII only.
- User callbacks are logged by id, not run: a callback that calls back into the object is not modelled, except the continuation `loop` installs, which is the `ResumeLoop` slot value.
- Transit.Perform: the number of nested `_onTransitionEnd` calls in the no-new-value branch is bounded by a `depth` argument, and at depth 0 the branch stops early.
- `FLAGS.iterate` is a field that no operation changes, as in the source.
- VendorPrefix.Lookup: the cache is a map from name to optional answer, and the names it inherits a member under are a set the resolver is created with (`ArrayMembers` lists ECMAScript 2023's); an inherited hit is answered as no name, where the source returns the inherited function, and both are equally unreadable as a frame key; `length`, whose cache write throws a range error, is not modelled.
- Transit.Readable: a resolved name that is no name reads the key `undefined`; the function an inherited hit returns would read its source text instead, which no frame has as a key in practice.
- Options.DefaultOptions: an `_options` that holds an array or a function is filled like an object and then held as a plain object, so its array entries (which the filter would read positionally) and its being callable are lost.
- Transit.SetSpeed: the loose `== 0` is modelled for decimal numerals only; exponent, hexadecimal, binary and octal zero text such as `0e1` or `0x0` is treated as non-zero.
- TransitionStyle.ComputeDuration: the speed is a non-zero real; a stored `null`, `undefined` or non-numeric speed, which `setSpeed` lets through, gives an infinite or not-a-number duration in the source, which reals do not model.
- `listening` is a set of frames: a frame performed again while its listener is still attached gets a second listener in the source, so each of its signals is then handled twice; the model handles it once.
- `_getFrame` is read as `_frames[index]`, with the cursor for `-1`: that is what it returns for both of its calls.
