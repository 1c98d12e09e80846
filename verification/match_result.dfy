/** The result of matching one pattern at one input position.

    Besides the outcome and the position reached, a result carries the
    furthest position any sub-attempt reached and the message produced
    there, so that a failing validation can point at the most specific
    cause. Results are built only by the three factories below. */
module MatchResults {

  datatype MatchResult = MatchResult(
    isSuccess: bool,
    position: int,
    errorMessage: string,
    furthestPosition: int,
    furthestErrorMessage: string)

  /** A success ending at `position`: nothing beyond it was reached and
      there is nothing to report. */
  function Success(position: int): (r: MatchResult)
    ensures r.isSuccess
    ensures r.position == position && r.furthestPosition == position
    ensures r.errorMessage == "" && r.furthestErrorMessage == ""
  {
    MatchResult(true, position, "", position, "")
  }

  /** A failure at `position` that reached no further than where it failed. */
  function Failure(position: int, message: string): (r: MatchResult)
    ensures !r.isSuccess
    ensures r.position == position && r.furthestPosition == position
    ensures r.errorMessage == message && r.furthestErrorMessage == message
  {
    MatchResult(false, position, message, position, message)
  }

  /** A failure at `position` that keeps the furthest point a deeper
      attempt reached. */
  function FailureWithFurthest(position: int, message: string, furthestPosition: int, furthestMessage: string): (r: MatchResult)
    ensures !r.isSuccess
    ensures r.position == position && r.errorMessage == message
    ensures r.furthestPosition == furthestPosition && r.furthestErrorMessage == furthestMessage
  {
    MatchResult(false, position, message, furthestPosition, furthestMessage)
  }

  /** The shape every factory produces: a success carries no furthest
      information of its own. */
  predicate FromFactory(r: MatchResult) {
    r.isSuccess ==> r == Success(r.position)
  }

  /** A result of a match that started at `start` on an input of length `n`:
      it never ends before the start or past the input, a success reached
      exactly its end, and a failure reached at least its own position. */
  predicate WellFormed(r: MatchResult, start: int, n: int) {
    && FromFactory(r)
    && start <= r.position <= n
    && r.position <= r.furthestPosition <= n
  }
}
