/** Promotion of waiting passengers into seats freed by a cancellation: the scan over a train's
    'Waiting List' PNRs in queue order, as a function, and what it guarantees. */
module Promotion {
  import opened Tables

  /** The sort key of `ORDER BY CAST(SUBSTRING_INDEX(waiting_list, '-', 1) AS SIGNED)`:
      the first ordinal of the range; a PNR without a range sorts as 0. */
  function StartOf(p: Pnr): int {
    match p.range
    case Some(rg) => rg.start
    case None => 0
  }

  /** The rows `WHERE train_no = train AND status = 'Waiting List'` selects from table `pnr`. */
  predicate Queued(pnrs: map<int, Pnr>, train: int, ref: int) {
    ref in pnrs && pnrs[ref].train == train && pnrs[ref].status == WaitingList
  }

  predicate Distinct(q: seq<int>) {
    forall i, j :: 0 <= i < j < |q| ==> q[i] != q[j]
  }

  /** The PNRs of `q` come in ascending order of range start. */
  predicate Sorted(pnrs: map<int, Pnr>, q: seq<int>) {
    forall i, j :: 0 <= i < j < |q| ==> q[i] in pnrs && q[j] in pnrs && StartOf(pnrs[q[i]]) <= StartOf(pnrs[q[j]])
  }

  /** `q` is a result of the waiting-queue query: each queued PNR once, in ascending order of start. */
  ghost predicate IsQueue(pnrs: map<int, Pnr>, train: int, q: seq<int>) {
    && (forall r :: r in q <==> Queued(pnrs, train, r))
    && (forall i :: 0 <= i < |q| ==> Queued(pnrs, train, q[i]))
    && Distinct(q)
    && Sorted(pnrs, q)
  }

  /** The state the promotion loop carries: the two tables it updates, `promotedCount` and `remainingSeats`. */
  datatype Scan = Scan(pnrs: map<int, Pnr>, passengers: seq<Passenger>, promoted: int, remaining: int)

  /** The range a partly promoted PNR is given: `(W - promoted) - (W - promoted + w - k)`, where W is the
      train's waiting count before promotion, w the PNR's waiting rows and k the rows promoted from it. */
  function PartialRange(queued: int, promoted: int, w: int, k: int): (rg: Range)
    ensures rg.end - rg.start + 1 == w - k + 1
  {
    Range(queued - promoted, queued - promoted + w - k)
  }

  /** One pass of the loop body for PNR `ref`, with `queued` the train's waiting count before promotion. */
  function Step(s: Scan, ref: int, queued: int): (t: Scan)
    requires ref in s.pnrs
    ensures t.pnrs.Keys == s.pnrs.Keys
    ensures forall x :: x in s.pnrs && x != ref ==> t.pnrs[x] == s.pnrs[x]
    ensures t.pnrs[ref].train == s.pnrs[ref].train && t.pnrs[ref].user == s.pnrs[ref].user
    ensures t.promoted + t.remaining == s.promoted + s.remaining
    ensures s.remaining >= 0 ==> 0 <= t.remaining <= s.remaining
  {
    var w := Tally(s.passengers, OfPnrStatus(ref, SeatWaiting));
    var k := Min(w, s.remaining);
    if k > 0 then
      var all := k == w;
      Scan(s.pnrs[ref := s.pnrs[ref].(status := if all then Confirmed else PartiallyConfirmed,
                                       range := if all then None else Some(PartialRange(queued, s.promoted, w, k)))],
           ConfirmFirst(s.passengers, ref, k), s.promoted + k, s.remaining - k)
    else s
  }

  /** The promotion loop from the given state over the rest of the queue: it stops at the end of the
      queue or as soon as no freed seat remains. */
  function PromoteScan(s: Scan, q: seq<int>, queued: int): Scan
    requires forall r :: r in q ==> r in s.pnrs
    decreases |q|
  {
    if q == [] || s.remaining <= 0 then s
    else PromoteScan(Step(s, q[0], queued), q[1..], queued)
  }

  /** One step of the scan: with a seat left, the head of the queue is served and the scan goes on. */
  lemma ScanUnfold(s: Scan, q: seq<int>, queued: int)
    requires forall r :: r in q ==> r in s.pnrs
    requires q != [] && s.remaining > 0
    ensures forall r :: r in q[1..] ==> r in Step(s, q[0], queued).pnrs
    ensures PromoteScan(s, q, queued) == PromoteScan(Step(s, q[0], queued), q[1..], queued)
  {
  }

  /** The freed seats are shared between promoted passengers and seats left over: the scan never
      promotes more than were freed, and touches no PNR outside the queue. */
  lemma {:induction false} ScanBudget(s: Scan, q: seq<int>, queued: int)
    requires forall r :: r in q ==> r in s.pnrs
    requires s.remaining >= 0
    ensures var r := PromoteScan(s, q, queued);
      && r.promoted + r.remaining == s.promoted + s.remaining
      && 0 <= r.remaining <= s.remaining
      && r.pnrs.Keys == s.pnrs.Keys
      && |r.passengers| == |s.passengers|
    decreases |q|
  {
    if q != [] && s.remaining > 0 {
      ScanBudget(Step(s, q[0], queued), q[1..], queued);
    }
  }

  /** A PNR outside the scanned queue keeps its row and all its passenger counts. */
  lemma {:induction false} ScanOutside(s: Scan, q: seq<int>, queued: int, x: int, st: SeatStatus)
    requires forall r :: r in q ==> r in s.pnrs
    requires x !in q
    ensures var r := PromoteScan(s, q, queued);
      && (x in s.pnrs ==> x in r.pnrs && r.pnrs[x] == s.pnrs[x])
      && Tally(r.passengers, OfPnrStatus(x, st)) == Tally(s.passengers, OfPnrStatus(x, st))
    decreases |q|
  {
    if q != [] && s.remaining > 0 {
      var w := Tally(s.passengers, OfPnrStatus(q[0], SeatWaiting));
      ConfirmFirstKeeps(s.passengers, q[0], Min(w, s.remaining), x, st);
      ScanOutside(Step(s, q[0], queued), q[1..], queued, x, st);
    }
  }

  /** Every promoted passenger moves from Waiting List to Confirmed; no passenger row is added or
      removed, and each PNR keeps its number of rows. */
  lemma {:induction false} ScanTally(s: Scan, q: seq<int>, queued: int, x: int)
    requires forall r :: r in q ==> r in s.pnrs
    requires s.remaining >= 0
    ensures var r := PromoteScan(s, q, queued);
      && Tally(r.passengers, OfStatus(SeatWaiting)) == Tally(s.passengers, OfStatus(SeatWaiting)) - (r.promoted - s.promoted)
      && Tally(r.passengers, OfStatus(SeatConfirmed)) == Tally(s.passengers, OfStatus(SeatConfirmed)) + (r.promoted - s.promoted)
      && Tally(r.passengers, OfPnr(x)) == Tally(s.passengers, OfPnr(x))
    decreases |q|
  {
    if q != [] && s.remaining > 0 {
      var w := Tally(s.passengers, OfPnrStatus(q[0], SeatWaiting));
      var k := Min(w, s.remaining);
      if k > 0 {
        ConfirmFirstTally(s.passengers, q[0], k);
        ConfirmFirstKeeps(s.passengers, q[0], k, x, SeatWaiting);
      }
      ScanTally(Step(s, q[0], queued), q[1..], queued, x);
    }
  }

  /** One step serves the PNR: min(w, remaining) of its w waiting passengers are promoted, so a step that
      leaves a seat over leaves none of them waiting, and a step that leaves some waiting uses up every seat. */
  lemma StepServes(s: Scan, ref: int, queued: int)
    requires ref in s.pnrs && s.remaining >= 0
    ensures var w := Tally(s.passengers, OfPnrStatus(ref, SeatWaiting));
      var t := Step(s, ref, queued);
      var w' := Tally(t.passengers, OfPnrStatus(ref, SeatWaiting));
      && w' == w - Min(w, s.remaining)
      && (t.remaining > 0 ==> w' == 0)
      && (w' > 0 ==> t.remaining == 0)
  {
    var w := Tally(s.passengers, OfPnrStatus(ref, SeatWaiting));
    var k := Min(w, s.remaining);
    if k > 0 {
      ConfirmFirstTally(s.passengers, ref, k);
    }
  }

  /** One step for `ref` leaves every count of another PNR as it was. */
  lemma StepKeeps(s: Scan, ref: int, queued: int, x: int, st: SeatStatus)
    requires ref in s.pnrs && x != ref
    ensures Tally(Step(s, ref, queued).passengers, OfPnrStatus(x, st)) == Tally(s.passengers, OfPnrStatus(x, st))
  {
    var w := Tally(s.passengers, OfPnrStatus(ref, SeatWaiting));
    ConfirmFirstKeeps(s.passengers, ref, Min(w, s.remaining), x, st);
  }

  /** First come, first served: if a PNR later in the queue had any passenger promoted, every PNR
      before it has no waiting passenger left. */
  lemma {:induction false} ScanFifo(s: Scan, q: seq<int>, queued: int, i: int, j: int)
    requires forall r :: r in q ==> r in s.pnrs
    requires Distinct(q) && s.remaining >= 0
    requires 0 <= i < j < |q|
    requires Tally(PromoteScan(s, q, queued).passengers, OfPnrStatus(q[j], SeatConfirmed))
           > Tally(s.passengers, OfPnrStatus(q[j], SeatConfirmed))
    ensures Tally(PromoteScan(s, q, queued).passengers, OfPnrStatus(q[i], SeatWaiting)) == 0
    decreases |q|
  {
    var ref := q[0];
    var rest := q[1..];
    if s.remaining == 0 {
      // the scan stops at once and promotes nobody
      assert false;
    }
    ScanUnfold(s, q, queued);
    var s1 := Step(s, ref, queued);
    assert q[j] == rest[j - 1] && q[j] != ref;
    // the first step leaves q[j] as it was
    StepKeeps(s, ref, queued, q[j], SeatConfirmed);
    StepServes(s, ref, queued);
    ScanBudget(s1, rest, queued);
    if i == 0 {
      if Tally(s1.passengers, OfPnrStatus(ref, SeatWaiting)) > 0 {
        // a partial promotion spends the last freed seat, so the scan ends there
        assert false;
      }
      assert ref !in rest;
      ScanOutside(s1, rest, queued, ref, SeatWaiting);
    } else {
      assert Distinct(rest);
      ScanFifo(s1, rest, queued, i - 1, j - 1);
    }
  }

  /** What becomes of a queued PNR: it is left waiting with nothing promoted, or all its waiting
      passengers are promoted and it is Confirmed with no range, or some are and it is Partially
      Confirmed, which happens only when the freed seats run out. The range it is then given spans
      one ordinal more than the passengers still waiting. If seats are left over, no queued PNR
      has a waiting passenger. */
  lemma {:induction false} ScanOutcome(s: Scan, q: seq<int>, queued: int, x: int)
    requires forall r :: r in q ==> r in s.pnrs
    requires Distinct(q) && s.remaining >= 0
    requires x in q && s.pnrs[x].status == WaitingList
    ensures var r := PromoteScan(s, q, queued);
      var waitingAfter := Tally(r.passengers, OfPnrStatus(x, SeatWaiting));
      && x in r.pnrs
      && (r.remaining > 0 ==> waitingAfter == 0)
      && match r.pnrs[x].status {
           case WaitingList =>
             r.pnrs[x] == s.pnrs[x] && waitingAfter == Tally(s.passengers, OfPnrStatus(x, SeatWaiting))
           case Confirmed =>
             r.pnrs[x].range == None && waitingAfter == 0
           case PartiallyConfirmed =>
             && r.remaining == 0 && waitingAfter > 0
             && r.pnrs[x].range.Some? && r.pnrs[x].range.value.end - r.pnrs[x].range.value.start == waitingAfter
           case _ => false
         }
    decreases |q|
  {
    var ref := q[0];
    var rest := q[1..];
    assert Distinct(rest);
    if s.remaining > 0 {
      ScanUnfold(s, q, queued);
      var s1 := Step(s, ref, queued);
      StepServes(s, ref, queued);
      ScanBudget(s1, rest, queued);
      if x == ref {
        assert x !in rest;
        ScanOutside(s1, rest, queued, x, SeatWaiting);
      } else {
        assert x in rest;
        StepKeeps(s, ref, queued, x, SeatWaiting);
        ScanOutcome(s1, rest, queued, x);
      }
    }
  }
}
