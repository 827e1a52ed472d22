/** The directive a file-system walker receives for each entry it finds. */
module Actions {

  /** `ContinueSearch` is the value every fresh argument object starts with;
      `SkipElement` abandons the entry (and, for a directory, what lies below it);
      `StopSearch` ends the whole walk. */
  datatype ActionType = ContinueSearch | SkipElement | StopSearch

  /** Severity order: ContinueSearch < SkipElement < StopSearch. */
  function Severity(a: ActionType): nat
  {
    match a
    case ContinueSearch => 0
    case SkipElement => 1
    case StopSearch => 2
  }

  /** The more severe of two directives. */
  function Severest(a: ActionType, b: ActionType): (r: ActionType)
    ensures r == a || r == b
    ensures Severity(a) <= Severity(r) && Severity(b) <= Severity(r)
  {
    if Severity(b) <= Severity(a) then a else b
  }
}
