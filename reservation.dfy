/** The seat and waiting-list ledger of the train reservation system: one object holding the
    tables train, wait, pnr, passenger and upi, and the operations that book, pay, cancel,
    refund, promote and renumber. Each operation is all-or-nothing: it either leaves the tables
    as they were or commits every row it writes. */
module Reservation {
  import opened Tables
  import opened Promotion
  import opened Renumbering

  /** `generateRandomPNR` draws `1000 + nextInt(999999000)` at most five times. */
  const MaxAttempts: nat := 5
  const PnrBase: int := 1000
  const PnrSpan: int := 999999000

  /** The tables the ledger changes when it books, cancels and promotes. */
  datatype Db = Db(trains: map<int, Train>, wait: map<int, int>, pnrs: map<int, Pnr>, passengers: seq<Passenger>)

  /** The three ways `bookTicket` serves a request, and how many seats each gives and queues. */
  datatype Kind = FullConfirm | FullWaitlist | Split
  datatype Plan = Plan(kind: Kind, confirmed: int, waiting: int)

  datatype BookError = NoSuchTrain | PnrExhausted | PaymentDeclined
  datatype Booking =
    | Failed(error: BookError)
    | FullyBooked(pnr: int)
    | Waitlisted(pnr: int, range: Range)
    | SplitBooked(pnr: int, confirmed: int, waiting: int)

  datatype Refund = Refunded(amount: int) | TrainMissing | UnknownAccount

  datatype Cancellation =
    | PnrNotFound
    | Aborted
    | RefundFailed(reason: Refund)
    | CancelledTicket(refund: int, freed: int)

  /** The classification of `bookTicket`: every requested seat is either given or queued, no seat on
      sale is left unused while a passenger is queued, and a request is queued only in part or in
      full when it does not fit. */
  function Classify(requested: int, available: nat): (p: Plan)
    ensures p.confirmed + p.waiting == requested
    ensures p.waiting >= 0 && p.confirmed <= available
    ensures p.waiting > 0 ==> p.confirmed == available
    ensures p.waiting == 0 <==> requested <= available
    ensures p.kind == FullConfirm <==> p.waiting == 0
    ensures p.kind == FullWaitlist <==> p.waiting > 0 && p.confirmed == 0
    ensures p.kind == Split ==> 0 < p.confirmed && 0 < p.waiting
  {
    if requested <= available then Plan(FullConfirm, requested, 0)
    else if available == 0 then Plan(FullWaitlist, 0, requested)
    else Plan(Split, available, requested - available)
  }

  /** The tables after `bookTicket` commits outcome `b` on tables `d`. A full confirm takes the seats
      off sale and adds a "Booked" PNR without a range and one "Booked" row per seat. A full waitlist
      leaves the seats alone, raises the waiting count by the request, and adds a "Waiting List" PNR
      with the next run of ordinals and one "Waiting List" row per passenger. A split sells every seat
      on sale to the first passengers as "Confirmed" rows and queues the rest as "Waiting List" rows,
      under one "Partially Booked" PNR without a range. */
  ghost predicate Committed(d: Db, d': Db, train: int, user: string, requested: int, details: seq<Details>, b: Booking)
    requires train in d.trains && requested <= |details|
  {
    var available := d.trains[train].available;
    var queued := WaitCount(d.wait, train);
    match b
    case Failed(_) => false
    case FullyBooked(pnr) =>
      && requested <= available
      && d' == Db(d.trains[train := d.trains[train].(available := available - requested)], d.wait,
                  d.pnrs[pnr := Pnr(train, user, Booked, None)],
                  d.passengers + Rows(pnr, details[..if requested < 0 then 0 else requested], SeatBooked))
    case Waitlisted(pnr, rg) =>
      && available == 0 < requested
      && rg == Range(queued + 1, queued + requested) && rg.end - rg.start + 1 == requested
      && d' == Db(d.trains, d.wait[train := queued + requested],
                  d.pnrs[pnr := Pnr(train, user, WaitingList, Some(rg))],
                  d.passengers + Rows(pnr, details[..requested], SeatWaiting))
    case SplitBooked(pnr, confirmed, waiting) =>
      && 0 < available < requested
      && confirmed == available && waiting == requested - available && confirmed + waiting == requested
      && d' == Db(d.trains[train := d.trains[train].(available := 0)], d.wait[train := queued + waiting],
                  d.pnrs[pnr := Pnr(train, user, PartiallyBooked, None)],
                  d.passengers + Rows(pnr, details[..confirmed], SeatConfirmed)
                               + Rows(pnr, details[confirmed..requested], SeatWaiting))
  }

  /** The effect of `promoteWaitingListPassengers(train, freed)` on the tables `d`: with no waiting count
      the freed seats go back on sale; otherwise the scan runs over the queue and the waiting count and
      the seats on sale are settled with what it promoted. */
  ghost predicate Promoted(d: Db, d': Db, train: int, freed: int, queue: seq<int>, scan: Scan)
    requires train in d.trains
  {
    var available := d.trains[train].available;
    if train !in d.wait || d.wait[train] == 0 then
      d' == d.(trains := d.trains[train := d.trains[train].(available := available + freed)])
    else
      var queued := d.wait[train];
      && IsQueue(d.pnrs, train, queue)
      && scan == PromoteScan(Scan(d.pnrs, d.passengers, 0, freed), queue, queued)
      && d' == Db(d.trains[train := d.trains[train].(available := available + freed - scan.promoted)],
                  if queued - scan.promoted <= 0 then d.wait - {train} else d.wait[train := queued - scan.promoted],
                  scan.pnrs, scan.passengers)
  }

  /** Promotion settles the freed seats: each one either goes back on sale or is taken by a waiting
      passenger who becomes Confirmed, the waiting count falls by the passengers promoted (its row
      disappears when nothing is left), and no other train changes. */
  lemma PromotedSettles(d: Db, d': Db, train: int, freed: int, queue: seq<int>, scan: Scan)
    requires train in d.trains && freed > 0
    requires Promoted(d, d', train, freed, queue, scan)
    ensures train in d'.trains
    ensures var gained := Tally(d'.passengers, OfStatus(SeatConfirmed)) - Tally(d.passengers, OfStatus(SeatConfirmed));
      && 0 <= gained <= freed
      && d'.trains[train].available == d.trains[train].available + freed - gained
      && Tally(d'.passengers, OfStatus(SeatWaiting)) == Tally(d.passengers, OfStatus(SeatWaiting)) - gained
      && (train in d'.wait ==> train in d.wait && d'.wait[train] == d.wait[train] - gained)
      && (0 < WaitCount(d.wait, train) <= gained ==> train !in d'.wait)
      && (WaitCount(d.wait, train) != 0 ==> (train in d'.wait <==> WaitCount(d.wait, train) - gained > 0))
      && (WaitCount(d.wait, train) == 0 ==> gained == 0)
    ensures |d'.passengers| == |d.passengers|
    ensures forall t :: t != train ==> (t in d'.trains <==> t in d.trains) && (t in d.trains ==> d'.trains[t] == d.trains[t])
    ensures forall t :: t != train ==> WaitCount(d'.wait, t) == WaitCount(d.wait, t)
  {
    if train in d.wait && d.wait[train] != 0 {
      var s := Scan(d.pnrs, d.passengers, 0, freed);
      ScanBudget(s, queue, d.wait[train]);
      ScanTally(s, queue, d.wait[train], 0);
    }
  }

  /** Promotion leaves a PNR that is not waiting, and the number of its passenger rows, as they were. */
  lemma PromotedKeepsOthers(d: Db, d': Db, train: int, freed: int, queue: seq<int>, scan: Scan, ref: int)
    requires train in d.trains && freed > 0
    requires Promoted(d, d', train, freed, queue, scan)
    requires ref in d.pnrs && !Queued(d.pnrs, train, ref)
    ensures ref in d'.pnrs && d'.pnrs[ref] == d.pnrs[ref]
    ensures Tally(d'.passengers, OfPnr(ref)) == Tally(d.passengers, OfPnr(ref))
  {
    if train in d.wait && d.wait[train] != 0 {
      var s := Scan(d.pnrs, d.passengers, 0, freed);
      ScanOutside(s, queue, d.wait[train], ref, SeatWaiting);
      ScanTally(s, queue, d.wait[train], ref);
    }
  }

  class TrainReservationSystem {
    var trains: map<int, Train>
    var wait: map<int, int>
    var pnrs: map<int, Pnr>
    var passengers: seq<Passenger>
    var upi: map<string, int>
    /** Set by `updateWaitingList` for `addToWaitingList`. */
    var currentWaitingNumber: int

    /** No train ever has fewer than zero seats on sale. */
    ghost predicate Valid()
      reads this
    {
      forall t :: t in trains ==> trains[t].available >= 0
    }

    ghost function Snapshot(): Db
      reads this
    {
      Db(trains, wait, pnrs, passengers)
    }

    constructor (trains0: map<int, Train>, wait0: map<int, int>, pnrs0: map<int, Pnr>,
                 passengers0: seq<Passenger>, upi0: map<string, int>)
      requires forall t :: t in trains0 ==> trains0[t].available >= 0
      ensures Valid()
      ensures trains == trains0 && wait == wait0 && pnrs == pnrs0 && passengers == passengers0 && upi == upi0
      ensures currentWaitingNumber == 0
    {
      trains, wait, pnrs, passengers, upi := trains0, wait0, pnrs0, passengers0, upi0;
      currentWaitingNumber := 0;
    }

    /** `generateRandomPNR`, with the random draws supplied by the caller: the first of at most five
        candidates that is not yet a PNR, or nothing when all five are taken. */
    method GenerateRandomPnr(draws: seq<int>) returns (r: Option<int>)
      requires |draws| >= MaxAttempts
      requires forall i :: 0 <= i < |draws| ==> 0 <= draws[i] < PnrSpan
      ensures r.Some? ==> PnrBase <= r.value <= 999999999 && r.value !in pnrs
      ensures r.Some? ==> exists i :: 0 <= i < MaxAttempts && r.value == PnrBase + draws[i]
                                   && forall j :: 0 <= j < i ==> PnrBase + draws[j] in pnrs
      ensures r.None? <==> forall i :: 0 <= i < MaxAttempts ==> PnrBase + draws[i] in pnrs
    {
      var attempts := 0;
      while attempts < MaxAttempts
        invariant 0 <= attempts <= MaxAttempts
        invariant forall j :: 0 <= j < attempts ==> PnrBase + draws[j] in pnrs
      {
        var pnr := PnrBase + draws[attempts];
        if pnr !in pnrs {
          return Some(pnr);
        }
        attempts := attempts + 1;
      }
      return None;
    }

    /** `pay`: the account must exist and hold at least the amount, which is then deducted. */
    method Pay(account: string, amount: int) returns (ok: bool)
      modifies this`upi
      ensures ok <==> account in old(upi) && old(upi)[account] >= amount
      ensures ok ==> upi == old(upi)[account := old(upi)[account] - amount]
      ensures !ok ==> upi == old(upi)
    {
      if account in upi {
        var balance := upi[account];
        if balance >= amount {
          upi := upi[account := balance - amount];
          return true;
        }
      }
      return false;
    }

    /** A passenger-insert loop: one row per details record, in order. */
    method InsertPassengers(ref: int, ds: seq<Details>, st: SeatStatus)
      modifies this`passengers
      ensures passengers == old(passengers) + Rows(ref, ds, st)
    {
      var i := 0;
      while i < |ds|
        invariant 0 <= i <= |ds|
        invariant passengers == old(passengers) + Rows(ref, ds[..i], st)
      {
        assert Rows(ref, ds[..i + 1], st) == Rows(ref, ds[..i], st) + [Passenger(ref, ds[i], st)];
        passengers := passengers + [Passenger(ref, ds[i], st)];
        i := i + 1;
      }
      assert ds[..|ds|] == ds;
    }

    /** `bookSeats` as `bookTicket` calls it, with status "Booked" and no range: it takes the seats off
        sale, adds the PNR and one "Booked" row per seat, or changes nothing when no train row is
        updated. */
    method BookSeats(train: int, seats: int, user: string, pnr: int, details: seq<Details>) returns (ok: bool)
      requires seats <= |details|
      modifies this`trains, this`pnrs, this`passengers
      ensures ok <==> train in old(trains)
      ensures !ok ==> trains == old(trains) && pnrs == old(pnrs) && passengers == old(passengers)
      ensures ok ==> trains == old(trains)[train := old(trains)[train].(available := old(trains)[train].available - seats)]
      ensures ok ==> pnrs == old(pnrs)[pnr := Pnr(train, user, Booked, None)]
      ensures ok ==> passengers == old(passengers) + Rows(pnr, details[..if seats < 0 then 0 else seats], SeatBooked)
      ensures ok && seats >= 0 ==> Accounted(old(Snapshot()), Snapshot(), train, pnr, seats)
    {
      if train !in trains {
        return false;
      }
      trains := trains[train := trains[train].(available := trains[train].available - seats)];
      pnrs := pnrs[pnr := Pnr(train, user, Booked, None)];
      ghost var ps0 := passengers;
      InsertPassengers(pnr, details[..if seats < 0 then 0 else seats], SeatBooked);
      BookedTally(ps0, pnr, details[..if seats < 0 then 0 else seats]);
      return true;
    }

    /** The full-waitlist block of `bookTicket`, once paid: the train's waiting count grows by the
        request (the row is created when absent), the PNR takes the next ordinals, and every passenger
        is queued. */
    method CommitWaitlist(train: int, requested: int, user: string, pnr: int, details: seq<Details>) returns (rg: Range)
      requires train in trains && 0 < requested <= |details|
      modifies this`wait, this`pnrs, this`passengers
      ensures rg == Range(WaitCount(old(wait), train) + 1, WaitCount(old(wait), train) + requested)
      ensures rg.end - rg.start + 1 == requested
      ensures wait == old(wait)[train := WaitCount(old(wait), train) + requested]
      ensures pnrs == old(pnrs)[pnr := Pnr(train, user, WaitingList, Some(rg))]
      ensures passengers == old(passengers) + Rows(pnr, details[..requested], SeatWaiting)
      ensures Accounted(old(Snapshot()), Snapshot(), train, pnr, requested)
    {
      var currentWaitingCount := WaitCount(wait, train);
      wait := wait[train := currentWaitingCount + requested];
      rg := Range(currentWaitingCount + 1, currentWaitingCount + requested);
      pnrs := pnrs[pnr := Pnr(train, user, WaitingList, Some(rg))];
      ghost var ps0 := passengers;
      InsertPassengers(pnr, details[..requested], SeatWaiting);
      AddedTally(ps0, pnr, [], details[..requested]);
      assert ps0 + Rows(pnr, [], SeatConfirmed) == ps0;
    }

    /** The split block of `bookTicket`, once paid: every seat on sale is given to the first passengers
        under a "Partially Booked" PNR without a range, and the rest are queued under the same PNR. */
    method CommitSplit(train: int, requested: int, user: string, pnr: int, details: seq<Details>) returns (confirmed: int, waiting: int)
      requires train in trains && 0 < trains[train].available < requested <= |details|
      modifies this`trains, this`wait, this`pnrs, this`passengers
      ensures confirmed == old(trains)[train].available && waiting == requested - confirmed
      ensures trains == old(trains)[train := old(trains)[train].(available := 0)]
      ensures wait == old(wait)[train := WaitCount(old(wait), train) + waiting]
      ensures pnrs == old(pnrs)[pnr := Pnr(train, user, PartiallyBooked, None)]
      ensures passengers == old(passengers) + Rows(pnr, details[..confirmed], SeatConfirmed)
                                            + Rows(pnr, details[confirmed..requested], SeatWaiting)
      ensures Accounted(old(Snapshot()), Snapshot(), train, pnr, requested)
    {
      confirmed := trains[train].available;
      ghost var ps0 := passengers;
      trains := trains[train := trains[train].(available := 0)];
      pnrs := pnrs[pnr := Pnr(train, user, PartiallyBooked, None)];
      InsertPassengers(pnr, details[..confirmed], SeatConfirmed);
      // the source tests `waitingSeats > 0` here, which always holds in this block
      waiting := requested - confirmed;
      wait := wait[train := WaitCount(wait, train) + waiting];
      InsertPassengers(pnr, details[confirmed..requested], SeatWaiting);
      AddedTally(ps0, pnr, details[..confirmed], details[confirmed..requested]);
    }

    /** `bookTicket` once the train and the seat count are chosen: allocate a PNR, classify, take the
        payment, then commit the rows of the chosen outcome. */
    method BookTicket(user: string, train: int, requested: int, draws: seq<int>, account: string, details: seq<Details>)
      returns (b: Booking)
      requires Valid()
      requires |draws| >= MaxAttempts
      requires forall i :: 0 <= i < |draws| ==> 0 <= draws[i] < PnrSpan
      requires requested <= |details|
      modifies this`trains, this`wait, this`pnrs, this`passengers, this`upi
      ensures Valid()
      ensures b.Failed? ==>
        trains == old(trains) && wait == old(wait) && pnrs == old(pnrs) && passengers == old(passengers) && upi == old(upi)
      ensures b == Failed(NoSuchTrain) <==> train !in old(trains)
      ensures b == Failed(PnrExhausted) <==>
        train in old(trains) && forall i :: 0 <= i < MaxAttempts ==> PnrBase + draws[i] in old(pnrs)
      ensures b == Failed(PaymentDeclined) <==>
        && train in old(trains) && !(forall i :: 0 <= i < MaxAttempts ==> PnrBase + draws[i] in old(pnrs))
        && !(account in old(upi) && old(upi)[account] >= old(trains)[train].fare * requested)
      ensures !b.Failed? ==>
        && train in old(trains) && train in trains
        && PnrBase <= b.pnr <= 999999999 && b.pnr !in old(pnrs)
        && account in old(upi) && old(upi)[account] >= old(trains)[train].fare * requested
        && upi == old(upi)[account := old(upi)[account] - old(trains)[train].fare * requested]
      ensures !b.Failed? ==> Committed(old(Snapshot()), Snapshot(), train, user, requested, details, b)
      ensures !b.Failed? && requested >= 0 ==> Accounted(old(Snapshot()), Snapshot(), train, b.pnr, requested)
    {
      if train !in trains {
        return Failed(NoSuchTrain);
      }
      var availableSeats := trains[train].available;
      var amount := trains[train].fare * requested;
      var candidate := GenerateRandomPnr(draws);
      if candidate.None? {
        return Failed(PnrExhausted);
      }
      var pnr := candidate.value;
      var plan := Classify(requested, availableSeats);
      var paid := Pay(account, amount);
      if !paid {
        return Failed(PaymentDeclined);
      }
      b := Settle(plan, train, requested, user, pnr, details);
    }

    /** The booking blocks of `bookTicket` once paid: the outcome the plan chooses is committed. */
    method Settle(plan: Plan, train: int, requested: int, user: string, pnr: int, details: seq<Details>) returns (b: Booking)
      requires Valid() && train in trains && requested <= |details|
      requires plan == Classify(requested, trains[train].available)
      modifies this`trains, this`wait, this`pnrs, this`passengers
      ensures Valid()
      ensures !b.Failed? && b.pnr == pnr
      ensures Committed(old(Snapshot()), Snapshot(), train, user, requested, details, b)
      ensures requested >= 0 ==> Accounted(old(Snapshot()), Snapshot(), train, pnr, requested)
    {
      match plan.kind
      case FullConfirm =>
        var ok := BookSeats(train, requested, user, pnr, details);
        assert ok;
        b := FullyBooked(pnr);
      case FullWaitlist =>
        var rg := CommitWaitlist(train, requested, user, pnr, details);
        b := Waitlisted(pnr, rg);
      case Split =>
        var confirmed, waiting := CommitSplit(train, requested, user, pnr, details);
        b := SplitBooked(pnr, confirmed, waiting);
    }

    /** `addToWaitingList`: one "Waiting List" row per details record, nothing else. */
    method AddToWaitingList(train: int, waitingSeats: int, user: string, pnr: int, details: seq<Details>)
      requires waitingSeats <= |details|
      modifies this`passengers
      ensures passengers == old(passengers) + Rows(pnr, details[..if waitingSeats < 0 then 0 else waitingSeats], SeatWaiting)
    {
      InsertPassengers(pnr, details[..if waitingSeats < 0 then 0 else waitingSeats], SeatWaiting);
    }

    /** `updateWaitingList`: adds to the train's waiting count (creating the row when absent) and
        records one past the largest range start among the train's 'Waiting List' PNRs, or 1. */
    method UpdateWaitingList(train: int, newWaitingCount: int)
      modifies this`wait, this`currentWaitingNumber
      ensures wait == old(wait)[train := WaitCount(old(wait), train) + newWaitingCount]
      ensures (forall r :: Queued(pnrs, train, r) ==> pnrs[r].range.None?) ==> currentWaitingNumber == 1
      ensures forall r :: Queued(pnrs, train, r) && pnrs[r].range.Some? ==> pnrs[r].range.value.start < currentWaitingNumber
      ensures (exists r :: Queued(pnrs, train, r) && pnrs[r].range.Some?) ==>
        exists r :: Queued(pnrs, train, r) && pnrs[r].range.Some? && pnrs[r].range.value.start == currentWaitingNumber - 1
    {
      var queue := WaitingQueue(train);
      var found := false;
      var maxStart := 0;
      for i := 0 to |queue|
        invariant !found ==> forall k :: 0 <= k < i ==> pnrs[queue[k]].range.None?
        invariant found ==> exists k :: 0 <= k < i && pnrs[queue[k]].range.Some? && pnrs[queue[k]].range.value.start == maxStart
        invariant forall k :: 0 <= k < i && pnrs[queue[k]].range.Some? ==> pnrs[queue[k]].range.value.start <= maxStart
      {
        var p := pnrs[queue[i]];
        if p.range.Some? && (!found || p.range.value.start > maxStart) {
          found := true;
          maxStart := p.range.value.start;
        }
      }
      var startWaitingNumber := if found then maxStart + 1 else 1;
      wait := wait[train := WaitCount(wait, train) + newWaitingCount];
      currentWaitingNumber := startWaitingNumber;
      if found {
        var k :| 0 <= k < |queue| && pnrs[queue[k]].range.Some? && pnrs[queue[k]].range.value.start == maxStart;
        assert Queued(pnrs, train, queue[k]);
      }
    }

    /** The waiting-queue query: the train's 'Waiting List' PNRs, each once, ordered by range start. */
    method WaitingQueue(train: int) returns (q: seq<int>)
      ensures IsQueue(pnrs, train, q)
    {
      var todo := set r | r in pnrs.Keys && Queued(pnrs, train, r);
      q := [];
      while exists r :: r in todo
        invariant forall r :: r in q ==> Queued(pnrs, train, r)
        invariant forall r :: Queued(pnrs, train, r) ==> r in q || r in todo
        invariant forall r :: r in todo ==> Queued(pnrs, train, r) && r !in q
        invariant forall i :: 0 <= i < |q| ==> Queued(pnrs, train, q[i])
        invariant Distinct(q) && Sorted(pnrs, q)
        decreases |todo|
      {
        var r :| r in todo;
        q := InsertByStart(train, q, r);
        todo := todo - {r};
      }
    }

    /** Inserts `r` into an ordered queue after every PNR whose range starts no later than its own. */
    method InsertByStart(train: int, q: seq<int>, r: int) returns (q': seq<int>)
      requires forall i :: 0 <= i < |q| ==> Queued(pnrs, train, q[i])
      requires Queued(pnrs, train, r) && r !in q && Distinct(q) && Sorted(pnrs, q)
      ensures forall x :: x in q' <==> x in q || x == r
      ensures forall i :: 0 <= i < |q'| ==> Queued(pnrs, train, q'[i])
      ensures Distinct(q') && Sorted(pnrs, q')
    {
      var key := StartOf(pnrs[r]);
      var j := 0;
      while j < |q| && StartOf(pnrs[q[j]]) <= key
        invariant 0 <= j <= |q|
        invariant forall k :: 0 <= k < j ==> StartOf(pnrs[q[k]]) <= key
      {
        j := j + 1;
      }
      q' := q[..j] + [r] + q[j..];
      InsertSorted(pnrs, q, j, r);
      InsertKeeps(pnrs, train, q, j, r);
    }

    /** `processRefund`: credits the account with the PNR's passenger rows times the fare, or changes
        nothing when the train or the account is unknown. */
    method ProcessRefund(ref: int, account: string) returns (r: Refund)
      requires ref in pnrs
      modifies this`upi
      ensures r == TrainMissing <==> pnrs[ref].train !in trains
      ensures r == UnknownAccount <==> pnrs[ref].train in trains && account !in old(upi)
      ensures r.Refunded? ==>
        r.amount == Tally(passengers, OfPnr(ref)) * trains[pnrs[ref].train].fare && upi == old(upi)[account := old(upi)[account] + r.amount]
      ensures !r.Refunded? ==> upi == old(upi)
    {
      var train := pnrs[ref].train;
      if train !in trains {
        return TrainMissing;
      }
      var amountPerTicket := trains[train].fare;
      var passengerCount := Tally(passengers, OfPnr(ref));
      var refundAmount := passengerCount * amountPerTicket;
      if account !in upi {
        return UnknownAccount;
      }
      upi := upi[account := upi[account] + refundAmount];
      return Refunded(refundAmount);
    }

    /** `promoteWaitingListPassengers`: gives the freed seats to the oldest waiting passengers of the
        train's 'Waiting List' PNRs and puts the rest back on sale. */
    method Promote(train: int, freed: int) returns (ghost queue: seq<int>, ghost scan: Scan)
      requires Valid() && train in trains && freed > 0
      modifies this`trains, this`wait, this`pnrs, this`passengers
      ensures Valid()
      ensures Promoted(old(Snapshot()), Snapshot(), train, freed, queue, scan)
    {
      var currentAvailableSeats := trains[train].available;
      queue, scan := [], Scan(pnrs, passengers, 0, freed);
      if train !in wait || wait[train] == 0 {
        trains := trains[train := trains[train].(available := currentAvailableSeats + freed)];
        return;
      }
      var currentWaitingCount := wait[train];
      var waiting := WaitingQueue(train);
      queue := waiting;
      var promotedCount, remainingSeats := PromoteQueue(waiting, currentWaitingCount, freed);
      scan := Scan(pnrs, passengers, promotedCount, remainingSeats);
      ScanBudget(Scan(old(pnrs), old(passengers), 0, freed), queue, currentWaitingCount);
      assert 0 <= promotedCount <= freed;
      var newWaitingCount := currentWaitingCount - promotedCount;
      if newWaitingCount <= 0 {
        wait := wait - {train};
      } else {
        wait := wait[train := newWaitingCount];
      }
      trains := trains[train := trains[train].(available := currentAvailableSeats + freed - promotedCount)];
    }

    /** The promotion loop of `promoteWaitingListPassengers` over the queue, with `queued` the train's
        waiting count and `freed` the seats to hand out: the tables and counters end as the scan says. */
    method PromoteQueue(queue: seq<int>, queued: int, freed: int) returns (promoted: int, remaining: int)
      requires forall r :: r in queue ==> r in pnrs
      modifies this`pnrs, this`passengers
      ensures Scan(pnrs, passengers, promoted, remaining) == PromoteScan(Scan(old(pnrs), old(passengers), 0, freed), queue, queued)
    {
      promoted, remaining := 0, freed;
      var i := 0;
      while i < |queue| && remaining > 0
        invariant 0 <= i <= |queue|
        invariant forall r :: r in queue ==> r in pnrs
        invariant PromoteScan(Scan(old(pnrs), old(passengers), 0, freed), queue, queued)
               == PromoteScan(Scan(pnrs, passengers, promoted, remaining), queue[i..], queued)
      {
        ScanUnfold(Scan(pnrs, passengers, promoted, remaining), queue[i..], queued);
        assert queue[i..][1..] == queue[i + 1..];
        promoted, remaining := PromotePnr(queue[i], queued, promoted, remaining);
        i := i + 1;
      }
    }

    /** One pass of the promotion loop: confirms up to `remaining` of the PNR's waiting rows and marks
        it Confirmed, or Partially Confirmed with a new range when some are left waiting. */
    method PromotePnr(ref: int, queued: int, promoted: int, remaining: int) returns (promoted': int, remaining': int)
      requires ref in pnrs
      modifies this`pnrs, this`passengers
      ensures Scan(pnrs, passengers, promoted', remaining') == Step(Scan(old(pnrs), old(passengers), promoted, remaining), ref, queued)
    {
      var count := Tally(passengers, OfPnrStatus(ref, SeatWaiting));
      var passengersToPromote := Min(count, remaining);
      promoted', remaining' := promoted, remaining;
      if passengersToPromote > 0 {
        passengers := ConfirmFirst(passengers, ref, passengersToPromote);
        var allConfirmed := passengersToPromote == count;
        pnrs := pnrs[ref := pnrs[ref].(
          status := if allConfirmed then Confirmed else PartiallyConfirmed,
          range := if allConfirmed then None else Some(PartialRange(queued, promoted, count, passengersToPromote)))];
        promoted' := promoted + passengersToPromote;
        remaining' := remaining - passengersToPromote;
      }
    }

    /** `cancelTicket`: with the caller's consent, refunds the PNR's rows at the train's fare, deletes
        them, marks the PNR Cancelled, and, when it held Confirmed rows, promotes into the freed seats. */
    method Cancel(ref: int, consent: bool, account: string) returns (c: Cancellation, ghost queue: seq<int>, ghost scan: Scan)
      requires Valid()
      modifies this`trains, this`wait, this`pnrs, this`passengers, this`upi
      ensures Valid()
      ensures c == PnrNotFound <==> ref !in old(pnrs) || old(pnrs)[ref].train !in old(trains)
      ensures c == Aborted <==> ref in old(pnrs) && old(pnrs)[ref].train in old(trains) && !consent
      ensures c.RefundFailed? <==> ref in old(pnrs) && old(pnrs)[ref].train in old(trains) && consent && account !in old(upi)
      ensures !c.CancelledTicket? ==> Snapshot() == old(Snapshot()) && upi == old(upi)
      ensures c.CancelledTicket? ==>
        && ref in old(pnrs) && old(pnrs)[ref].train in old(trains)
        && Withdrawn(old(Snapshot()), Snapshot(), old(upi), upi, ref, account, c.refund, c.freed, queue, scan)
    {
      queue, scan := [], Scan(pnrs, passengers, 0, 0);
      if ref !in pnrs || pnrs[ref].train !in trains {
        return PnrNotFound, queue, scan;
      }
      if !consent {
        return Aborted, queue, scan;
      }
      c, queue, scan := Withdraw(ref, account);
    }

    /** The consented part of `cancelTicket`: the refund, then the deletes and updates, then promotion;
        a failed refund rolls everything back. */
    method Withdraw(ref: int, account: string) returns (c: Cancellation, ghost queue: seq<int>, ghost scan: Scan)
      requires Valid() && ref in pnrs && pnrs[ref].train in trains
      modifies this`trains, this`wait, this`pnrs, this`passengers, this`upi
      ensures Valid()
      ensures c.RefundFailed? || c.CancelledTicket?
      ensures c.RefundFailed? <==> account !in old(upi)
      ensures c.RefundFailed? ==> Snapshot() == old(Snapshot()) && upi == old(upi)
      ensures c.CancelledTicket? ==>
        Withdrawn(old(Snapshot()), Snapshot(), old(upi), upi, ref, account, c.refund, c.freed, queue, scan)
    {
      queue, scan := [], Scan(pnrs, passengers, 0, 0);
      var train := pnrs[ref].train;
      var confirmedCount := Tally(passengers, OfPnrStatus(ref, SeatConfirmed));
      var refund := ProcessRefund(ref, account);
      if !refund.Refunded? {
        return RefundFailed(refund), queue, scan;
      }
      assert Snapshot() == old(Snapshot());
      DeleteAndMark(ref);
      if confirmedCount > 0 {
        ghost var mid := Snapshot();
        queue, scan := Promote(train, confirmedCount);
        PromotedKeepsOthers(mid, Snapshot(), train, confirmedCount, queue, scan, ref);
      }
      c := CancelledTicket(refund.amount, confirmedCount);
    }

    /** The writes of `cancelTicket` before promotion: the PNR's passenger rows are deleted and the PNR
        is marked Cancelled with no range; nothing else changes. */
    method DeleteAndMark(ref: int)
      requires ref in pnrs
      modifies this`pnrs, this`passengers
      ensures Snapshot() == old(Snapshot()).(pnrs := old(pnrs)[ref := old(pnrs)[ref].(status := Cancelled, range := None)],
                                             passengers := RemovePnr(old(passengers), ref))
      ensures Tally(passengers, OfPnr(ref)) == 0
    {
      RemovePnrTally(passengers, ref);
      passengers := RemovePnr(passengers, ref);
      pnrs := pnrs[ref := pnrs[ref].(status := Cancelled, range := None)];
    }

    /** `updateWaitingListNumbers`: renumbers the train's 'Waiting List' PNRs in queue order from 1,
        each as wide as its passenger rows. */
    method UpdateWaitingListNumbers(train: int) returns (ghost queue: seq<int>)
      modifies this`pnrs
      ensures IsQueue(old(pnrs), train, queue)
      ensures pnrs == RenumberScan(old(pnrs), passengers, queue, 1)
    {
      var waiting := WaitingQueue(train);
      queue := waiting;
      var newWaitingNumber: int := 1;
      var i := 0;
      while i < |waiting|
        invariant 0 <= i <= |waiting| && queue == waiting
        invariant forall r :: r in queue ==> r in pnrs
        invariant RenumberScan(old(pnrs), passengers, queue, 1) == RenumberScan(pnrs, passengers, queue[i..], newWaitingNumber)
      {
        var waitingPnr := waiting[i];
        var passengerCount := Tally(passengers, OfPnr(waitingPnr));
        RenumberUnfold(pnrs, passengers, queue[i..], newWaitingNumber);
        assert queue[i..][1..] == queue[i + 1..];
        pnrs := pnrs[waitingPnr := pnrs[waitingPnr].(range := Some(Range(newWaitingNumber, newWaitingNumber + passengerCount - 1)))];
        newWaitingNumber := newWaitingNumber + passengerCount;
        i := i + 1;
      }
    }
  }

  /** Putting `r` between the PNRs that start no later and those that start later keeps the order. */
  lemma InsertSorted(pnrs: map<int, Pnr>, q: seq<int>, j: int, r: int)
    requires Sorted(pnrs, q) && 0 <= j <= |q| && r in pnrs
    requires forall k :: 0 <= k < j ==> q[k] in pnrs && StartOf(pnrs[q[k]]) <= StartOf(pnrs[r])
    requires j < |q| ==> q[j] in pnrs && StartOf(pnrs[r]) < StartOf(pnrs[q[j]])
    ensures Sorted(pnrs, q[..j] + [r] + q[j..])
  {
    var q' := q[..j] + [r] + q[j..];
    forall a, b | 0 <= a < b < |q'|
      ensures q'[a] in pnrs && q'[b] in pnrs && StartOf(pnrs[q'[a]]) <= StartOf(pnrs[q'[b]])
    {
      if b < j {
        assert q'[a] == q[a] && q'[b] == q[b];
      } else if b == j {
        assert q'[a] == q[a] && q'[b] == r;
      } else if a == j {
        assert q'[a] == r && q'[b] == q[b - 1];
        assert j == b - 1 || StartOf(pnrs[q[j]]) <= StartOf(pnrs[q[b - 1]]);
      } else if a < j {
        assert q'[a] == q[a] && q'[b] == q[b - 1];
      } else {
        assert q'[a] == q[a - 1] && q'[b] == q[b - 1];
      }
    }
  }

  /** Inserting a new queued PNR keeps the queue's PNRs distinct and queued, and adds just that one. */
  lemma InsertKeeps(pnrs: map<int, Pnr>, train: int, q: seq<int>, j: int, r: int)
    requires 0 <= j <= |q| && Distinct(q) && r !in q
    requires Queued(pnrs, train, r) && forall i :: 0 <= i < |q| ==> Queued(pnrs, train, q[i])
    ensures var q' := q[..j] + [r] + q[j..];
      && (forall x :: x in q' <==> x in q || x == r)
      && (forall i :: 0 <= i < |q'| ==> Queued(pnrs, train, q'[i]))
      && Distinct(q')
  {
    var q' := q[..j] + [r] + q[j..];
    assert q == q[..j] + q[j..];
    forall a | 0 <= a < |q'|
      ensures q'[a] == (if a < j then q[a] else if a == j then r else q[a - 1])
    {
    }
  }

  /** The tables `d'` and balances `upi'` after `cancelTicket` commits on `d` and `upi`: the account is
      credited the PNR's passenger rows times the fare, the rows are deleted, the PNR is Cancelled with
      no range, and the seats its Confirmed rows held are handed to promotion when there are any. */
  ghost predicate Withdrawn(d: Db, d': Db, upi: map<string, int>, upi': map<string, int>, ref: int, account: string,
                            refund: int, freed: int, queue: seq<int>, scan: Scan)
    requires ref in d.pnrs && d.pnrs[ref].train in d.trains
  {
    var train := d.pnrs[ref].train;
    var cancelled := d.(pnrs := d.pnrs[ref := d.pnrs[ref].(status := Cancelled, range := None)],
                        passengers := RemovePnr(d.passengers, ref));
    && refund == Tally(d.passengers, OfPnr(ref)) * d.trains[train].fare
    && freed == Tally(d.passengers, OfPnrStatus(ref, SeatConfirmed))
    && account in upi && upi' == upi[account := upi[account] + refund]
    && (freed == 0 ==> d' == cancelled)
    && (freed > 0 ==> Promoted(cancelled, d', train, freed, queue, scan))
    && ref in d'.pnrs && d'.pnrs[ref].status == Cancelled && d'.pnrs[ref].range == None
    && Tally(d'.passengers, OfPnr(ref)) == 0
  }

  /** The seats a booking takes off sale are the Booked and Confirmed rows it adds, the waiting count
      grows by the Waiting List rows it adds, and the PNR gains one row per requested seat. */
  ghost predicate Accounted(d: Db, d': Db, train: int, ref: int, requested: int) {
    && train in d.trains && train in d'.trains
    && d.trains[train].available - d'.trains[train].available
       == (Tally(d'.passengers, OfStatus(SeatBooked)) + Tally(d'.passengers, OfStatus(SeatConfirmed)))
        - (Tally(d.passengers, OfStatus(SeatBooked)) + Tally(d.passengers, OfStatus(SeatConfirmed)))
    && WaitCount(d'.wait, train) - WaitCount(d.wait, train)
       == Tally(d'.passengers, OfStatus(SeatWaiting)) - Tally(d.passengers, OfStatus(SeatWaiting))
    && Tally(d'.passengers, OfPnr(ref)) - Tally(d.passengers, OfPnr(ref)) == requested
  }

  /** The counts after Confirmed rows, then Waiting List rows, are added under one PNR. */
  lemma AddedTally(ps: seq<Passenger>, ref: int, given: seq<Details>, queued: seq<Details>)
    ensures var added := ps + Rows(ref, given, SeatConfirmed) + Rows(ref, queued, SeatWaiting);
      && Tally(added, OfStatus(SeatBooked)) == Tally(ps, OfStatus(SeatBooked))
      && Tally(added, OfStatus(SeatConfirmed)) == Tally(ps, OfStatus(SeatConfirmed)) + |given|
      && Tally(added, OfStatus(SeatWaiting)) == Tally(ps, OfStatus(SeatWaiting)) + |queued|
      && Tally(added, OfPnr(ref)) == Tally(ps, OfPnr(ref)) + |given| + |queued|
  {
    var a := Rows(ref, given, SeatConfirmed);
    var b := Rows(ref, queued, SeatWaiting);
    RowsTally(ref, given, SeatConfirmed);
    RowsTally(ref, queued, SeatWaiting);
    forall sel | sel in [OfStatus(SeatBooked), OfStatus(SeatConfirmed), OfStatus(SeatWaiting), OfPnr(ref)]
      ensures Tally(ps + a + b, sel) == Tally(ps, sel) + Tally(a, sel) + Tally(b, sel)
    {
      TallyAppend(ps, a, sel);
      TallyAppend(ps + a, b, sel);
    }
  }

  /** The counts after Booked rows are added under one PNR. */
  lemma BookedTally(ps: seq<Passenger>, ref: int, ds: seq<Details>)
    ensures var added := ps + Rows(ref, ds, SeatBooked);
      && Tally(added, OfStatus(SeatBooked)) == Tally(ps, OfStatus(SeatBooked)) + |ds|
      && Tally(added, OfStatus(SeatConfirmed)) == Tally(ps, OfStatus(SeatConfirmed))
      && Tally(added, OfStatus(SeatWaiting)) == Tally(ps, OfStatus(SeatWaiting))
      && Tally(added, OfPnr(ref)) == Tally(ps, OfPnr(ref)) + |ds|
  {
    var a := Rows(ref, ds, SeatBooked);
    RowsTally(ref, ds, SeatBooked);
    forall sel | sel in [OfStatus(SeatBooked), OfStatus(SeatConfirmed), OfStatus(SeatWaiting), OfPnr(ref)]
      ensures Tally(ps + a, sel) == Tally(ps, sel) + Tally(a, sel)
    {
      TallyAppend(ps, a, sel);
    }
  }

  /** A full confirm gives its passengers the status "Booked", never "Confirmed": cancelling a fresh
      PNR booked that way counts no confirmed seat, so its seats are not handed back to the train. */
  lemma BookedFreesNothing(ps: seq<Passenger>, ref: int, ds: seq<Details>)
    requires Tally(ps, OfPnr(ref)) == 0
    ensures Tally(ps + Rows(ref, ds, SeatBooked), OfPnr(ref)) == |ds|
    ensures Tally(ps + Rows(ref, ds, SeatBooked), OfPnrStatus(ref, SeatConfirmed)) == 0
  {
    RowsTally(ref, ds, SeatBooked);
    TallyAppend(ps, Rows(ref, ds, SeatBooked), OfPnr(ref));
    TallyAppend(ps, Rows(ref, ds, SeatBooked), OfPnrStatus(ref, SeatConfirmed));
    TallyStatusWithin(ps, ref, SeatConfirmed);
  }
}
