/**
 * The e-reader's navigation state: a single page counter, 1-indexed,
 * moved by three requests.  "Previous" steps back unless already on the
 * first page, "next" steps forward unless already on the last page, and a
 * jump moves to any page in range and is refused otherwise.  A request
 * that moves the counter (and every accepted jump) sends a change
 * notification; a refused request changes nothing and sends none.
 *
 * The methods of EReaderModel.EReader are proved against these functions.
 */
module Navigation {

  datatype Request = Prev | Next | Jump(target: int)

  /** The counter stays on a page, or on 1 when the document has no pages. */
  predicate Bounded(curr: int, total: int)
  {
    1 <= curr && (curr <= total || curr == 1)
  }

  /** Whether a jump to `target` is accepted in a document of `total` pages. */
  predicate JumpAccepted(target: int, total: int)
  {
    !(target < 1 || target > total)
  }

  /** Whether `req` changes the state and so sends a change notification. */
  predicate Notifies(curr: int, total: int, req: Request)
  {
    match req
    case Prev => curr > 1
    case Next => curr < total
    case Jump(target) => JumpAccepted(target, total)
  }

  /** The page counter after `req`. */
  function Step(curr: int, total: int, req: Request): int
  {
    match req
    case Prev => if curr > 1 then curr - 1 else curr
    case Next => if curr < total then curr + 1 else curr
    case Jump(target) => if JumpAccepted(target, total) then target else curr
  }

  /** The page counter after a series of requests, and the number of notifications sent on the way. */
  function Run(curr: int, total: int, reqs: seq<Request>): (int, nat)
    decreases |reqs|
  {
    if reqs == [] then (curr, 0)
    else
      var (last, sent) := Run(Step(curr, total, reqs[0]), total, reqs[1..]);
      (last, sent + if Notifies(curr, total, reqs[0]) then 1 else 0)
  }

  /** Every request keeps the counter bounded. */
  lemma StepBounded(curr: int, total: int, req: Request)
    requires Bounded(curr, total)
    ensures Bounded(Step(curr, total, req), total)
  {
  }

  /** A change of the counter is always notified; accepted jumps notify even when they stay put. */
  lemma ChangeIsNotified(curr: int, total: int, req: Request)
    ensures Step(curr, total, req) != curr ==> Notifies(curr, total, req)
    ensures !Notifies(curr, total, req) ==> Step(curr, total, req) == curr
  {
  }

  /** Out-of-range jumps are refused and leave the counter as it is. */
  lemma OutOfRangeJumpIsNoOp(curr: int, total: int, target: int)
    requires target < 1 || target > total
    ensures !Notifies(curr, total, Jump(target)) && Step(curr, total, Jump(target)) == curr
  {
  }

  /** A jump to the current page succeeds and leaves the counter unchanged. */
  lemma JumpToCurrent(curr: int, total: int)
    requires Bounded(curr, total) && total >= 1
    ensures Notifies(curr, total, Jump(curr)) && Step(curr, total, Jump(curr)) == curr
  {
  }

  /** Both ends of the range absorb further steps past them. */
  lemma EndsAbsorb(total: int)
    requires total >= 1
    ensures Step(1, total, Prev) == 1 && !Notifies(1, total, Prev)
    ensures Step(total, total, Next) == total && !Notifies(total, total, Next)
  {
  }

  /** Stepping back and then forward returns to the page unless it was the first; forward then back, unless it was the last. */
  lemma PrevNextInverse(curr: int, total: int)
    requires Bounded(curr, total)
    ensures curr > 1 ==> Step(Step(curr, total, Prev), total, Next) == curr
    ensures curr < total ==> Step(Step(curr, total, Next), total, Prev) == curr
  {
  }

  /** Any series of requests keeps the counter bounded and sends at most one notification per request. */
  lemma {:induction false} RunBounded(curr: int, total: int, reqs: seq<Request>)
    requires Bounded(curr, total)
    ensures Bounded(Run(curr, total, reqs).0, total)
    ensures Run(curr, total, reqs).1 <= |reqs|
    decreases |reqs|
  {
    if reqs != [] {
      StepBounded(curr, total, reqs[0]);
      RunBounded(Step(curr, total, reqs[0]), total, reqs[1..]);
    }
  }

  /** In a document without pages no series of requests moves the counter off 1 or sends a notification. */
  lemma {:induction false} EmptyDocumentIsFrozen(reqs: seq<Request>)
    ensures Run(1, 0, reqs) == (1, 0)
    decreases |reqs|
  {
    if reqs != [] {
      assert Step(1, 0, reqs[0]) == 1 && !Notifies(1, 0, reqs[0]);
      EmptyDocumentIsFrozen(reqs[1..]);
    }
  }
}
