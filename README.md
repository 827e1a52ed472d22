# File-system processing strategy: per-entry decision

A file-system walker hands every entry it discovers to
`FileSystemProcessingStrategy.ProcessItemFinded`, together with an optional
filter, an "item found" notifier, a "filtered item found" notifier and an
invoker that fires a notifier if it is not null. The strategy fires the found
notifier, then, if a filter is present and accepts the entry, the filtered
notifier, and returns a directive for the walker: `ContinueSearch`,
`SkipElement` or `StopSearch`. Handlers report back by assigning the
`ActionType` of the argument object they receive; each stage gets a fresh
argument object that starts at `ContinueSearch`.

The implementation of the strategy is not part of this model; only its test
fixture `FileSystemProcessingStrategyTests.cs` is, and the model is built from
what its nine tests assert. Where a simpler reading would run the filtered
stage whenever the filter accepts and combine both stages by severity
(`ContinueSearch < SkipElement < StopSearch`), the tests at lines 84-92 and
120-128 show a call count of 1 with an accepting filter and a filtered
handler present: a found stage that leaves `SkipElement` or `StopSearch`
decides the outcome and the filtered notifier does not run. The model follows
the tests. Whenever the filtered stage does run, the result is still the more
severe of the two stages (`Strategy.ResultIsSeverest`).

Modules:

- `Wrappers`: `Option`, used for the optional filter.
- `Actions`: the `ActionType` directive and its severity order.
- `Events`: a handler as what it does to the directive (`KeepsAction` or
  `SetsAction(a)`); a notifier as its delegate's invocation list (`[]` is the
  null delegate; the tests' lambdas are one-element lists); the argument class
  `ItemFoundArgs` with its mutable `Action` field; the invoker `OnEvent`
  (lines 150-153), a loop that runs every subscribed handler once, in order,
  on the same argument, and does nothing for a null delegate.
- `Strategy`: the specification function `Decide`, the method
  `ProcessItemFinded` proved against it (it allocates one argument object per
  stage and fires each notifier through `OnEvent`), and the lemmas that state
  what the tests fix, for every entry, filter and notifier.
- `StrategyTests`: the nine tests, each a method whose `ensures` is the
  test's assertions. `delegatesCallCount` is the number of handler
  invocations.

Assumptions for inputs no test covers, taken as the obvious reading: an absent
found notifier leaves `ContinueSearch`, so the filtered stage may still run;
a rejecting filter returns the found stage's directive (the test at lines
45-55 asserts only the call count); without a filter the filtered notifier never runs, even if present; a filter
is not consulted once the found stage has halted, and since a filter is a
pure function here that choice is not observable
(`Strategy.FilterIrrelevantAfterHalt`). Calling the strategy twice with the
same inputs gives the same directive, because `ProcessItemFinded` is tied to
the function `Decide`.

## Model

| member | source | states |
|---|---|---|
| `Events.ItemFoundArgs.constructor` | FileSystemProcessingStrategyTests.cs:57-76 | a fresh argument object carries the entry and starts at ContinueSearch |
| `Events.OnEvent` | FileSystemProcessingStrategyTests.cs:150-153 | every handler of the delegate runs once, in order, on the same argument, so the argument ends at `After(someEvent, old value)`; a null delegate makes no call and leaves the directive unchanged |
| `Events.AfterAppend` | FileSystemProcessingStrategyTests.cs:150-153 | firing two invocation lists one after the other equals firing their concatenation |
| `Events.AfterIsLastAssignment` | FileSystemProcessingStrategyTests.cs:150-153 | the directive a delegate leaves is the value of its last assigning handler, or the prior value when no handler assigns |
| `Events.SilentKeepsAction` | FileSystemProcessingStrategyTests.cs:39-40 | handlers that only count their calls leave the directive unchanged |
| `Events.LastHandlerDecides` | FileSystemProcessingStrategyTests.cs:85-89 | a handler that assigns a directive last decides it, whatever the argument held |
| `Strategy.ProcessItemFinded` | FileSystemProcessingStrategyTests.cs:22-148 | the returned directive and the sequence of handler invocations are those of `Decide`: found stage first, filtered stage only if the found stage left ContinueSearch and the filter accepts |
| `Strategy.NoFilterNotifiesFoundOnly` | FileSystemProcessingStrategyTests.cs:28-30 | without a filter only the found notifier runs, once per handler, and its directive is the result |
| `Strategy.AcceptedEntryNotifiesBoth` | FileSystemProcessingStrategyTests.cs:39-42 | an accepting filter after silent found handlers runs both notifiers, found first, with as many calls as both lists hold handlers |
| `Strategy.RejectedEntryNotifiesFoundOnly` | FileSystemProcessingStrategyTests.cs:51-54 | a rejecting filter leaves the filtered notifier uncalled, the found handlers being the only calls; that it returns the found stage's directive is the assumption stated above |
| `Strategy.SilentNotifiersContinue` | FileSystemProcessingStrategyTests.cs:62-75 | handlers that never assign the directive yield ContinueSearch, with no filter, an accepting or a rejecting one |
| `Strategy.FoundStageHalts` | FileSystemProcessingStrategyTests.cs:84-128 | a found handler that sets SkipElement or StopSearch last makes that the result and no filtered handler runs, whatever the filter |
| `Strategy.FilteredStageDecides` | FileSystemProcessingStrategyTests.cs:101-147 | after a found stage that leaves ContinueSearch and an accepting filter, the last assigning filtered handler decides the result and both notifiers ran, found first |
| `Strategy.CountingFoundThenFilteredDecides` | FileSystemProcessingStrategyTests.cs:101-147 | the tests' case: counting found handlers, an accepting filter and a filtered handler that sets the directive last give that directive with as many calls as both lists hold handlers |
| `Strategy.FilteredStageRunsIff` | FileSystemProcessingStrategyTests.cs:39-147 | a filtered handler runs if and only if the found stage left ContinueSearch, a filter is present and accepts the entry, and the filtered delegate is not null |
| `Strategy.FoundStageRunsFirst` | FileSystemProcessingStrategyTests.cs:39-42 | the found handlers always run, and before any filtered handler |
| `Strategy.ResultIsSeverest` | FileSystemProcessingStrategyTests.cs:78-148 | the result is never less severe than the found stage's directive, and when the filtered stage ran it is the more severe of the two stages |
| `Strategy.FilterIrrelevantAfterHalt` | FileSystemProcessingStrategyTests.cs:84-92 | once the found stage left SkipElement or StopSearch, the outcome does not depend on the filter |
| `Strategy.SkipIsNotEscalatedByFilteredStage` | FileSystemProcessingStrategyTests.cs:84-92 | for every input whose found stage leaves SkipElement and whose filtered stage would leave StopSearch, the result is SkipElement, which is not the severity combination of the two stages: the filtered stage is skipped, not combined |
| `StrategyTests.ItemFindedCall` | FileSystemProcessingStrategyTests.cs:22-31 | no filter, one counting found handler: one call |
| `StrategyTests.FilteredItemFindedCall` | FileSystemProcessingStrategyTests.cs:33-43 | accepting filter, two counting handlers: two calls |
| `StrategyTests.ItemNotPassFilter` | FileSystemProcessingStrategyTests.cs:45-55 | rejecting filter, two counting handlers: one call |
| `StrategyTests.ItemFinded_ContinueSearchAction` | FileSystemProcessingStrategyTests.cs:57-65 | no filter, a handler that does nothing: ContinueSearch |
| `StrategyTests.FilteredItemFinded_ContinueSearchAction` | FileSystemProcessingStrategyTests.cs:67-76 | accepting filter, two handlers that do nothing: ContinueSearch |
| `StrategyTests.FindedItemSkipped_SkipElementAction` | FileSystemProcessingStrategyTests.cs:78-93 | found handler sets SkipElement: SkipElement and one call |
| `StrategyTests.FilteredFindedItemSkipped_SkipElementAction` | FileSystemProcessingStrategyTests.cs:95-112 | filtered handler sets SkipElement: SkipElement and two calls |
| `StrategyTests.FindedItemStopped_StopSearchAction` | FileSystemProcessingStrategyTests.cs:114-129 | found handler sets StopSearch: StopSearch and one call |
| `StrategyTests.FilteredFindedItemStopped_StopSearchAction` | FileSystemProcessingStrategyTests.cs:131-148 | filtered handler sets StopSearch: StopSearch and two calls |

## Left out

- The implementation of `FileSystemProcessingStrategy` is not part of this model; its behaviour is taken from the tests, with the assumptions listed above for the cases they do not cover.
- The invoker parameter: Dafny cannot pass a method as a value, so `ProcessItemFinded` always fires its notifiers through `Events.OnEvent`, the invoker every test passes.
- The entry is an arbitrary value of a type parameter; `FileSystemInfo`, its Moq mock and the NUnit fixture setup (lines 15-20) are test plumbing.
- The sender argument of the event (line 152) and any effect of a handler other than on the directive; a handler's own counter is modelled as the count of handler invocations, so the handlers `(s, e) => { }` of lines 62 and 73, which do not count, are not distinguished from counting ones (those tests assert no count).
- Handlers that read the directive before choosing one: a handler either leaves the directive or assigns a fixed value.
- Exceptions thrown by a filter or a handler: nothing in the tests addresses them.
- Enumeration of the file system and the walker that acts on the directive: I/O, not part of this core.
