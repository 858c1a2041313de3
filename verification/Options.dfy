/** Optional values, and the verdict of an operation that changes state first and saves it last. */
module Options {

  datatype Option<+T> = None | Some(value: T)

  /** A refused operation changes nothing; a failed save is reported after the state has changed. */
  datatype SaveOutcome = Refused | Saved | SaveFailed

  function OutcomeOf<T>(after: Option<T>, saves: bool): (outcome: SaveOutcome)
    ensures outcome.Refused? <==> after.None?
    ensures outcome.Saved? <==> after.Some? && saves
  {
    if after.None? then Refused else if saves then Saved else SaveFailed
  }

  function Kept<T>(before: T, after: Option<T>): (now: T)
    ensures after.None? ==> now == before
    ensures after.Some? ==> now == after.value
  {
    if after.Some? then after.value else before
  }
}
