/** The per-entry decision of the file-system walker: notify the "item found"
    handlers, then, if a filter accepts the entry, the "filtered item found"
    handlers, and return the directive they leave. */
module Strategy {
  import opened Wrappers
  import opened Actions
  import opened Events

  /** Which notifier a handler invocation belonged to. */
  datatype Stage = Found | FilteredFound

  /** The directive returned and the handler invocations, in call order. */
  datatype Outcome = Outcome(action: ActionType, invoked: seq<Stage>)

  /** `count` invocations of handlers of one notifier. */
  function Calls(stage: Stage, count: nat): (r: seq<Stage>)
    ensures |r| == count
    ensures forall i :: 0 <= i < |r| ==> r[i] == stage
  {
    seq(count, _ => stage)
  }

  /** Specification of `ProcessItemFinded`. Each stage writes into a fresh
      argument that starts at ContinueSearch. A found stage that leaves
      SkipElement or StopSearch decides the outcome and the filtered stage
      does not run; otherwise the filtered stage runs exactly when a filter is
      present and accepts the entry, and its directive is the result. */
  function Decide<E>(entry: E, filter: Option<E -> bool>, found: Notifier, filteredFound: Notifier): Outcome
  {
    var first := After(found, ContinueSearch);
    if first != ContinueSearch || filter.None? || !filter.value(entry) then
      Outcome(first, Calls(Found, |found|))
    else
      Outcome(After(filteredFound, ContinueSearch),
              Calls(Found, |found|) + Calls(FilteredFound, |filteredFound|))
  }

  /** Processes one entry, firing each notifier through the invoker `OnEvent`
      with an argument object of its own. */
  method ProcessItemFinded<E>(item: E, filter: Option<E -> bool>,
                              itemFinded: Notifier, filteredItemFinded: Notifier)
    returns (action: ActionType, invoked: seq<Stage>)
    ensures Outcome(action, invoked) == Decide(item, filter, itemFinded, filteredItemFinded)
  {
    var args := new ItemFoundArgs(item);
    var count := OnEvent(itemFinded, args);
    invoked := Calls(Found, count);
    action := args.Action;
    if action != ContinueSearch {
      return;
    }
    if filter.Some? && filter.value(item) {
      var filteredArgs := new ItemFoundArgs(item);
      count := OnEvent(filteredItemFinded, filteredArgs);
      invoked := invoked + Calls(FilteredFound, count);
      action := filteredArgs.Action;
    }
  }

  /** Without a filter only the found notifier runs, once per handler, and it
      alone decides the directive. */
  lemma NoFilterNotifiesFoundOnly<E>(entry: E, found: Notifier, filteredFound: Notifier)
    ensures Decide(entry, None, found, filteredFound).invoked == Calls(Found, |found|)
    ensures FilteredFound !in Decide(entry, None, found, filteredFound).invoked
    ensures Decide(entry, None, found, filteredFound).action == After(found, ContinueSearch)
  {
  }

  /** A filter accepting the entry, after found handlers that leave the
      directive alone, runs both notifiers: first the found handlers, then the
      filtered ones. */
  lemma AcceptedEntryNotifiesBoth<E>(entry: E, filter: Option<E -> bool>, found: Notifier, filteredFound: Notifier)
    requires filter.Some? && filter.value(entry)
    requires Silent(found)
    ensures Decide(entry, filter, found, filteredFound).invoked
         == Calls(Found, |found|) + Calls(FilteredFound, |filteredFound|)
    ensures |Decide(entry, filter, found, filteredFound).invoked| == |found| + |filteredFound|
  {
    SilentKeepsAction(found, ContinueSearch);
  }

  /** A filter rejecting the entry leaves the filtered notifier uncalled and
      the found stage's directive as the result. */
  lemma RejectedEntryNotifiesFoundOnly<E>(entry: E, filter: Option<E -> bool>, found: Notifier, filteredFound: Notifier)
    requires filter.Some? && !filter.value(entry)
    ensures Decide(entry, filter, found, filteredFound).invoked == Calls(Found, |found|)
    ensures FilteredFound !in Decide(entry, filter, found, filteredFound).invoked
    ensures Decide(entry, filter, found, filteredFound).action == After(found, ContinueSearch)
  {
  }

  /** Handlers that never touch the directive yield ContinueSearch, with or
      without a filter and whatever the filter answers. */
  lemma SilentNotifiersContinue<E>(entry: E, filter: Option<E -> bool>, found: Notifier, filteredFound: Notifier)
    requires Silent(found) && Silent(filteredFound)
    ensures Decide(entry, filter, found, filteredFound).action == ContinueSearch
  {
    SilentKeepsAction(found, ContinueSearch);
    SilentKeepsAction(filteredFound, ContinueSearch);
  }

  /** A found handler that sets SkipElement or StopSearch last decides the
      outcome: that directive is returned and no filtered handler runs, even
      when the filter accepts the entry. */
  lemma FoundStageHalts<E>(entry: E, filter: Option<E -> bool>, found: Notifier, filteredFound: Notifier, a: ActionType)
    requires found != [] && found[|found| - 1] == SetsAction(a) && a != ContinueSearch
    ensures Decide(entry, filter, found, filteredFound).action == a
    ensures Decide(entry, filter, found, filteredFound).invoked == Calls(Found, |found|)
    ensures FilteredFound !in Decide(entry, filter, found, filteredFound).invoked
  {
    LastHandlerDecides(found, ContinueSearch, a);
  }

  /** After a found stage that leaves ContinueSearch and a filter that
      accepts the entry, the filtered handler that sets a directive last
      decides it, and both notifiers ran. */
  lemma FilteredStageDecides<E>(entry: E, filter: Option<E -> bool>, found: Notifier, filteredFound: Notifier, a: ActionType)
    requires filter.Some? && filter.value(entry)
    requires After(found, ContinueSearch) == ContinueSearch
    requires filteredFound != [] && filteredFound[|filteredFound| - 1] == SetsAction(a)
    ensures Decide(entry, filter, found, filteredFound).action == a
    ensures Decide(entry, filter, found, filteredFound).invoked
         == Calls(Found, |found|) + Calls(FilteredFound, |filteredFound|)
  {
    LastHandlerDecides(filteredFound, ContinueSearch, a);
  }

  /** The case of the tests: found handlers that only count their calls,
      then a filtered handler that sets the directive last. */
  lemma CountingFoundThenFilteredDecides<E>(entry: E, filter: Option<E -> bool>, found: Notifier, filteredFound: Notifier, a: ActionType)
    requires filter.Some? && filter.value(entry)
    requires Silent(found)
    requires filteredFound != [] && filteredFound[|filteredFound| - 1] == SetsAction(a)
    ensures Decide(entry, filter, found, filteredFound).action == a
    ensures |Decide(entry, filter, found, filteredFound).invoked| == |found| + |filteredFound|
  {
    SilentKeepsAction(found, ContinueSearch);
    FilteredStageDecides(entry, filter, found, filteredFound, a);
  }

  /** A filtered handler runs exactly when the found stage left
      ContinueSearch, a filter is present and accepts the entry, and the
      filtered delegate is not null. */
  lemma FilteredStageRunsIff<E>(entry: E, filter: Option<E -> bool>, found: Notifier, filteredFound: Notifier)
    ensures FilteredFound in Decide(entry, filter, found, filteredFound).invoked
        <==> (After(found, ContinueSearch) == ContinueSearch && filter.Some? && filter.value(entry)
              && filteredFound != [])
  {
    var d := Decide(entry, filter, found, filteredFound);
    if After(found, ContinueSearch) == ContinueSearch && filter.Some? && filter.value(entry) && filteredFound != [] {
      assert d.invoked[|found|] == FilteredFound;
    }
  }

  /** The found stage always runs, and runs first. */
  lemma FoundStageRunsFirst<E>(entry: E, filter: Option<E -> bool>, found: Notifier, filteredFound: Notifier)
    ensures |found| <= |Decide(entry, filter, found, filteredFound).invoked|
    ensures Decide(entry, filter, found, filteredFound).invoked[..|found|] == Calls(Found, |found|)
  {
  }

  /** Severity only accumulates: the result is never less severe than what
      the found stage left, and when the filtered stage ran the result is the
      more severe of the two stages' directives. */
  lemma ResultIsSeverest<E>(entry: E, filter: Option<E -> bool>, found: Notifier, filteredFound: Notifier)
    ensures Severity(After(found, ContinueSearch)) <= Severity(Decide(entry, filter, found, filteredFound).action)
    ensures FilteredFound in Decide(entry, filter, found, filteredFound).invoked ==>
              Decide(entry, filter, found, filteredFound).action
              == Severest(After(found, ContinueSearch), After(filteredFound, ContinueSearch))
  {
  }

  /** Once the found stage has halted, the filter has no influence on the
      outcome: whether it is evaluated is not observable. */
  lemma FilterIrrelevantAfterHalt<E>(entry: E, f: Option<E -> bool>, g: Option<E -> bool>, found: Notifier, filteredFound: Notifier)
    requires After(found, ContinueSearch) != ContinueSearch
    ensures Decide(entry, f, found, filteredFound) == Decide(entry, g, found, filteredFound)
  {
  }

  /** The filtered stage is skipped, not combined by severity: a found stage
      that skips the entry wins over a filtered stage that would stop, even
      when the filter accepts the entry. */
  lemma SkipIsNotEscalatedByFilteredStage<E>(entry: E, filter: Option<E -> bool>, found: Notifier, filteredFound: Notifier)
    requires After(found, ContinueSearch) == SkipElement
    requires After(filteredFound, ContinueSearch) == StopSearch
    ensures Decide(entry, filter, found, filteredFound).action == SkipElement
    ensures Decide(entry, filter, found, filteredFound).action
         != Severest(After(found, ContinueSearch), After(filteredFound, ContinueSearch))
  {
  }
}
