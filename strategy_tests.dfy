/** The nine scenarios of the strategy's test fixture, each stated for
    an arbitrary entry standing for the mocked file-system object. A handler
    that counts its calls and leaves the directive alone is `KeepsAction`;
    `delegatesCallCount` is the number of handler invocations. */
module StrategyTests {
  import opened Wrappers
  import opened Actions
  import opened Events
  import opened Strategy

  method ItemFindedCall<E>(fileSystemInfo: E) returns (delegatesCallCount: nat)
    ensures delegatesCallCount == 1
  {
    var _, invoked := ProcessItemFinded(fileSystemInfo, None, [KeepsAction], []);
    delegatesCallCount := |invoked|;
  }

  method FilteredItemFindedCall<E>(fileSystemInfo: E) returns (delegatesCallCount: nat)
    ensures delegatesCallCount == 2
  {
    var _, invoked := ProcessItemFinded(fileSystemInfo, Some(_ => true), [KeepsAction], [KeepsAction]);
    delegatesCallCount := |invoked|;
  }

  method ItemNotPassFilter<E>(fileSystemInfo: E) returns (delegatesCallCount: nat)
    ensures delegatesCallCount == 1
  {
    var _, invoked := ProcessItemFinded(fileSystemInfo, Some(_ => false), [KeepsAction], [KeepsAction]);
    delegatesCallCount := |invoked|;
  }

  method ItemFinded_ContinueSearchAction<E>(fileSystemInfo: E) returns (action: ActionType)
    ensures action == ContinueSearch
  {
    var invoked;
    action, invoked := ProcessItemFinded(fileSystemInfo, None, [KeepsAction], []);
  }

  method FilteredItemFinded_ContinueSearchAction<E>(fileSystemInfo: E) returns (action: ActionType)
    ensures action == ContinueSearch
  {
    var invoked;
    action, invoked := ProcessItemFinded(fileSystemInfo, Some(_ => true), [KeepsAction], [KeepsAction]);
  }

  method FindedItemSkipped_SkipElementAction<E>(fileSystemInfo: E) returns (action: ActionType, delegatesCallCount: nat)
    ensures action == SkipElement
    ensures delegatesCallCount == 1
  {
    var invoked;
    action, invoked := ProcessItemFinded(fileSystemInfo, Some(_ => true), [SetsAction(SkipElement)], [KeepsAction]);
    delegatesCallCount := |invoked|;
  }

  method FilteredFindedItemSkipped_SkipElementAction<E>(fileSystemInfo: E) returns (action: ActionType, delegatesCallCount: nat)
    ensures action == SkipElement
    ensures delegatesCallCount == 2
  {
    var invoked;
    action, invoked := ProcessItemFinded(fileSystemInfo, Some(_ => true), [KeepsAction], [SetsAction(SkipElement)]);
    delegatesCallCount := |invoked|;
  }

  method FindedItemStopped_StopSearchAction<E>(fileSystemInfo: E) returns (action: ActionType, delegatesCallCount: nat)
    ensures action == StopSearch
    ensures delegatesCallCount == 1
  {
    var invoked;
    action, invoked := ProcessItemFinded(fileSystemInfo, Some(_ => true), [SetsAction(StopSearch)], [KeepsAction]);
    delegatesCallCount := |invoked|;
  }

  method FilteredFindedItemStopped_StopSearchAction<E>(fileSystemInfo: E) returns (action: ActionType, delegatesCallCount: nat)
    ensures action == StopSearch
    ensures delegatesCallCount == 2
  {
    var invoked;
    action, invoked := ProcessItemFinded(fileSystemInfo, Some(_ => true), [KeepsAction], [SetsAction(StopSearch)]);
    delegatesCallCount := |invoked|;
  }
}
