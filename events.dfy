/** Notifiers, the argument object they write into, and the null-tolerant
    invoker `OnEvent`. */
module Events {
  import opened Actions

  /** One subscribed handler, reduced to what it does to the argument's
      directive: leave it as it is, or assign it a value. */
  datatype Handler = KeepsAction | SetsAction(action: ActionType)

  /** An event handler delegate, as its invocation list: the handlers run in
      this order on the same argument object. The null delegate is `[]`. */
  type Notifier = seq<Handler>

  /** The directive left by one handler that finds `current` in the argument. */
  function Apply(h: Handler, current: ActionType): ActionType
  {
    match h
    case KeepsAction => current
    case SetsAction(a) => a
  }

  /** The directive left in an argument that held `current` once every
      handler of `n` has run, first to last. */
  function After(n: Notifier, current: ActionType): ActionType
    decreases |n|
  {
    if n == [] then current else After(n[1..], Apply(n[0], current))
  }

  /** Reference definition: the value of the last handler that assigns one,
      or `current` when no handler assigns. */
  function LastAssignment(n: Notifier, current: ActionType): ActionType
    decreases |n|
  {
    if n == [] then current
    else match n[|n| - 1]
      case SetsAction(a) => a
      case KeepsAction => LastAssignment(n[..|n| - 1], current)
  }

  /** No handler of `n` touches the directive. */
  predicate Silent(n: Notifier)
  {
    forall i :: 0 <= i < |n| ==> n[i].KeepsAction?
  }

  /** Running two invocation lists one after the other is running their
      concatenation. */
  lemma {:induction false} AfterAppend(n: Notifier, m: Notifier, current: ActionType)
    ensures After(n + m, current) == After(m, After(n, current))
    decreases |n|
  {
    if n == [] {
      assert n + m == m;
    } else {
      assert (n + m)[1..] == n[1..] + m;
      AfterAppend(n[1..], m, Apply(n[0], current));
    }
  }

  /** The last handler that assigns the directive decides it. */
  lemma {:induction false} AfterIsLastAssignment(n: Notifier, current: ActionType)
    ensures After(n, current) == LastAssignment(n, current)
    decreases |n|
  {
    if n != [] {
      var init, last := n[..|n| - 1], n[|n| - 1];
      assert n == init + [last];
      AfterAppend(init, [last], current);
      AfterIsLastAssignment(init, current);
    }
  }

  /** Handlers that only count their calls leave the directive unchanged. */
  lemma {:induction false} SilentKeepsAction(n: Notifier, current: ActionType)
    requires Silent(n)
    ensures After(n, current) == current
    decreases |n|
  {
    if n != [] {
      assert forall i :: 0 <= i < |n[1..]| ==> n[1..][i] == n[i + 1];
      SilentKeepsAction(n[1..], current);
    }
  }

  /** A handler that assigns `a` last makes `a` the directive, whatever the
      argument held before. */
  lemma LastHandlerDecides(n: Notifier, current: ActionType, a: ActionType)
    requires n != [] && n[|n| - 1] == SetsAction(a)
    ensures After(n, current) == a
  {
    AfterIsLastAssignment(n, current);
  }

  /** The argument object a notifier receives: the entry found and the
      directive, which the handlers may overwrite. */
  class ItemFoundArgs<E> {
    const Item: E
    var Action: ActionType

    constructor (item: E)
      ensures Item == item && Action == ContinueSearch
    {
      Item := item;
      Action := ContinueSearch;
    }
  }

  /** Fires `someEvent` on `args` if it is not null: each subscribed handler
      runs once, in order, on the same argument. A null delegate is a no-op.
      Returns the number of handler invocations. */
  method OnEvent<E>(someEvent: Notifier, args: ItemFoundArgs<E>) returns (invocations: nat)
    modifies args
    ensures invocations == |someEvent|
    ensures args.Action == After(someEvent, old(args.Action))
    ensures someEvent == [] ==> args.Action == old(args.Action)
  {
    ghost var start := args.Action;
    var i := 0;
    while i < |someEvent|
      invariant 0 <= i <= |someEvent|
      invariant After(someEvent, start) == After(someEvent[i..], args.Action)
    {
      assert someEvent[i..][1..] == someEvent[i + 1..];
      args.Action := Apply(someEvent[i], args.Action);
      i := i + 1;
    }
    assert someEvent[i..] == [];
    invocations := i;
  }
}
