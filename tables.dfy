/** The rows of the reservation database (tables train, wait, pnr, passenger and upi)
    as values, and the row-counting queries the ledger runs against the passenger table. */
module Tables {

  datatype Option<+T> = None | Some(value: T)

  /** A row of table `train`: the seats still on sale and the fare of one seat. */
  datatype Train = Train(available: int, fare: int)

  /** The `start-end` text a PNR keeps in its `waiting_list` column: inclusive ordinals
      in the train's waiting queue. */
  datatype Range = Range(start: int, end: int)

  /** The `status` column of a PNR. */
  datatype PnrStatus = Booked | WaitingList | PartiallyBooked | Confirmed | PartiallyConfirmed | Cancelled

  /** A row of table `pnr`, keyed by its reference number `pr`. */
  datatype Pnr = Pnr(train: int, user: string, status: PnrStatus, range: Option<Range>)

  /** The `status` column of a passenger: "Booked", "Confirmed" or "Waiting List". */
  datatype SeatStatus = SeatBooked | SeatConfirmed | SeatWaiting

  /** What the console asks of every passenger. */
  datatype Details = Details(name: string, age: int, gender: string)

  /** A row of table `passenger`. */
  datatype Passenger = Passenger(pnr: int, details: Details, status: SeatStatus)

  /** The WHERE clause of a `SELECT COUNT(*) FROM passenger`. */
  datatype Selector = OfPnr(ref: int) | OfStatus(status: SeatStatus) | OfPnrStatus(ref: int, status: SeatStatus)

  predicate Selects(sel: Selector, p: Passenger) {
    match sel
    case OfPnr(r) => p.pnr == r
    case OfStatus(s) => p.status == s
    case OfPnrStatus(r, s) => p.pnr == r && p.status == s
  }

  function Min(a: int, b: int): int {
    if a <= b then a else b
  }

  /** `SELECT COUNT(*) FROM passenger WHERE sel`. */
  function Tally(ps: seq<Passenger>, sel: Selector): (n: nat)
    ensures n <= |ps|
  {
    if ps == [] then 0
    else (if Selects(sel, ps[0]) then 1 else 0) + Tally(ps[1..], sel)
  }

  lemma {:induction false} TallyAppend(a: seq<Passenger>, b: seq<Passenger>, sel: Selector)
    ensures Tally(a + b, sel) == Tally(a, sel) + Tally(b, sel)
  {
    if a != [] {
      assert (a + b)[1..] == a[1..] + b;
      TallyAppend(a[1..], b, sel);
    } else {
      assert a + b == b;
    }
  }

  /** A PNR has no more rows in one status than it has rows. */
  lemma {:induction false} TallyStatusWithin(ps: seq<Passenger>, ref: int, st: SeatStatus)
    ensures Tally(ps, OfPnrStatus(ref, st)) <= Tally(ps, OfPnr(ref))
  {
    if ps != [] {
      TallyStatusWithin(ps[1..], ref, st);
    }
  }

  /** The waiting count a train has in table `wait`; a missing row means none. */
  function WaitCount(wait: map<int, int>, train: int): int {
    if train in wait then wait[train] else 0
  }

  /** The rows one passenger-insert loop adds: one per details record, all with the same PNR and status. */
  function Rows(ref: int, ds: seq<Details>, st: SeatStatus): seq<Passenger> {
    seq(|ds|, i requires 0 <= i < |ds| => Passenger(ref, ds[i], st))
  }

  /** Every row added carries the PNR and the status it was inserted with, so the counts by
      PNR and by status grow by the number of details records, and nothing else does. */
  lemma {:induction false} RowsTally(ref: int, ds: seq<Details>, st: SeatStatus)
    ensures Tally(Rows(ref, ds, st), OfPnr(ref)) == |ds|
    ensures Tally(Rows(ref, ds, st), OfStatus(st)) == |ds|
    ensures Tally(Rows(ref, ds, st), OfPnrStatus(ref, st)) == |ds|
    ensures forall x :: x != ref ==> Tally(Rows(ref, ds, st), OfPnr(x)) == 0
    ensures forall s :: s != st ==> Tally(Rows(ref, ds, st), OfStatus(s)) == 0
    ensures forall s :: s != st ==> Tally(Rows(ref, ds, st), OfPnrStatus(ref, s)) == 0
  {
    if ds != [] {
      var r := Rows(ref, ds, st);
      assert r[1..] == Rows(ref, ds[1..], st);
      RowsTally(ref, ds[1..], st);
    }
  }

  /** `DELETE FROM passenger WHERE pnr = ref`. */
  function RemovePnr(ps: seq<Passenger>, ref: int): (r: seq<Passenger>)
    ensures |r| <= |ps|
    ensures forall p :: p in r ==> p in ps && p.pnr != ref
  {
    if ps == [] then []
    else if ps[0].pnr == ref then RemovePnr(ps[1..], ref)
    else [ps[0]] + RemovePnr(ps[1..], ref)
  }

  /** Deleting a PNR's rows removes exactly those rows from every count. */
  lemma {:induction false} RemovePnrTally(ps: seq<Passenger>, ref: int)
    ensures Tally(RemovePnr(ps, ref), OfPnr(ref)) == 0
    ensures |RemovePnr(ps, ref)| == |ps| - Tally(ps, OfPnr(ref))
    ensures forall s :: Tally(RemovePnr(ps, ref), OfStatus(s)) == Tally(ps, OfStatus(s)) - Tally(ps, OfPnrStatus(ref, s))
    ensures forall x, s :: x != ref ==> Tally(RemovePnr(ps, ref), OfPnrStatus(x, s)) == Tally(ps, OfPnrStatus(x, s))
  {
    if ps != [] {
      RemovePnrTally(ps[1..], ref);
      if ps[0].pnr != ref {
        var r := RemovePnr(ps, ref);
        assert r[1..] == RemovePnr(ps[1..], ref);
      }
    }
  }

  /** `UPDATE passenger SET status='Confirmed' WHERE pnr = ref AND status = 'Waiting List' LIMIT k`,
      taking the waiting rows in table order. */
  function ConfirmFirst(ps: seq<Passenger>, ref: int, k: int): (r: seq<Passenger>)
    ensures |r| == |ps|
    ensures forall i :: 0 <= i < |ps| ==> r[i].pnr == ps[i].pnr && r[i].details == ps[i].details
    ensures forall i :: 0 <= i < |ps| && r[i] != ps[i] ==>
      ps[i].pnr == ref && ps[i].status == SeatWaiting && r[i].status == SeatConfirmed
  {
    if ps == [] then []
    else
      var promote := k > 0 && ps[0].pnr == ref && ps[0].status == SeatWaiting;
      [if promote then ps[0].(status := SeatConfirmed) else ps[0]]
        + ConfirmFirst(ps[1..], ref, if promote then k - 1 else k)
  }

  /** Promoting k rows of a PNR moves min(k, w) of its w waiting rows to Confirmed. */
  lemma {:induction false} ConfirmFirstTally(ps: seq<Passenger>, ref: int, k: nat)
    ensures var m := Min(k, Tally(ps, OfPnrStatus(ref, SeatWaiting)));
      && Tally(ConfirmFirst(ps, ref, k), OfPnrStatus(ref, SeatWaiting)) == Tally(ps, OfPnrStatus(ref, SeatWaiting)) - m
      && Tally(ConfirmFirst(ps, ref, k), OfPnrStatus(ref, SeatConfirmed)) == Tally(ps, OfPnrStatus(ref, SeatConfirmed)) + m
      && Tally(ConfirmFirst(ps, ref, k), OfStatus(SeatWaiting)) == Tally(ps, OfStatus(SeatWaiting)) - m
      && Tally(ConfirmFirst(ps, ref, k), OfStatus(SeatConfirmed)) == Tally(ps, OfStatus(SeatConfirmed)) + m
  {
    ConfirmFirstMoves(ps, ref, k, false);
    ConfirmFirstMoves(ps, ref, k, true);
  }

  /** The induction behind `ConfirmFirstTally`, for the waiting and confirmed rows of the PNR or,
      when `global` holds, of the whole table. */
  lemma {:induction false} ConfirmFirstMoves(ps: seq<Passenger>, ref: int, k: nat, global: bool)
    ensures var waiting := if global then OfStatus(SeatWaiting) else OfPnrStatus(ref, SeatWaiting);
      var confirmed := if global then OfStatus(SeatConfirmed) else OfPnrStatus(ref, SeatConfirmed);
      var m := Min(k, Tally(ps, OfPnrStatus(ref, SeatWaiting)));
      && Tally(ConfirmFirst(ps, ref, k), waiting) == Tally(ps, waiting) - m
      && Tally(ConfirmFirst(ps, ref, k), confirmed) == Tally(ps, confirmed) + m
  {
    if ps != [] {
      var r := ConfirmFirst(ps, ref, k);
      var head := k > 0 && ps[0].pnr == ref && ps[0].status == SeatWaiting;
      var k' := if head then k - 1 else k;
      assert r[1..] == ConfirmFirst(ps[1..], ref, k');
      assert r[0] == if head then ps[0].(status := SeatConfirmed) else ps[0];
      ConfirmFirstMoves(ps[1..], ref, k', global);
    }
  }

  /** Promotion leaves the number of rows of every PNR, and every count of the other PNRs, as it was. */
  lemma {:induction false} ConfirmFirstKeeps(ps: seq<Passenger>, ref: int, k: int, x: int, s: SeatStatus)
    ensures Tally(ConfirmFirst(ps, ref, k), OfPnr(x)) == Tally(ps, OfPnr(x))
    ensures x != ref ==> Tally(ConfirmFirst(ps, ref, k), OfPnrStatus(x, s)) == Tally(ps, OfPnrStatus(x, s))
  {
    if ps != [] {
      var r := ConfirmFirst(ps, ref, k);
      var k' := if k > 0 && ps[0].pnr == ref && ps[0].status == SeatWaiting then k - 1 else k;
      assert r[1..] == ConfirmFirst(ps[1..], ref, k');
      ConfirmFirstKeeps(ps[1..], ref, k', x, s);
    }
  }
}
