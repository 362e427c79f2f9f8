/** The renumbering pass over a train's waiting queue: each 'Waiting List' PNR, in queue order,
    is given the next run of ordinals, as wide as its number of passenger rows. */
module Renumbering {
  import opened Tables
  import opened Promotion

  /** The passenger rows of the PNRs in `q`, all statuses counted. */
  function Width(ps: seq<Passenger>, q: seq<int>): nat {
    if q == [] then 0 else Tally(ps, OfPnr(q[0])) + Width(ps, q[1..])
  }

  lemma {:induction false} WidthAppend(ps: seq<Passenger>, a: seq<int>, b: seq<int>)
    ensures Width(ps, a + b) == Width(ps, a) + Width(ps, b)
  {
    if a == [] {
      assert a + b == b;
    } else {
      assert (a + b)[1..] == a[1..] + b;
      WidthAppend(ps, a[1..], b);
    }
  }

  /** The loop of the pass from ordinal `next` over the rest of the queue: the PNR at the head gets
      `next-(next + count - 1)` and the accumulator moves on by its row count. */
  function RenumberScan(pnrs: map<int, Pnr>, ps: seq<Passenger>, q: seq<int>, next: int): map<int, Pnr>
    requires forall r :: r in q ==> r in pnrs
    decreases |q|
  {
    if q == [] then pnrs
    else
      var count := Tally(ps, OfPnr(q[0]));
      RenumberScan(pnrs[q[0] := pnrs[q[0]].(range := Some(Range(next, next + count - 1)))], ps, q[1..], next + count)
  }

  /** One step of the pass: the head of the queue gets its run and the pass goes on from the next ordinal. */
  lemma RenumberUnfold(pnrs: map<int, Pnr>, ps: seq<Passenger>, q: seq<int>, next: int)
    requires forall r :: r in q ==> r in pnrs
    requires q != []
    ensures var count := Tally(ps, OfPnr(q[0]));
      && (forall r :: r in q[1..] ==> r in pnrs[q[0] := pnrs[q[0]].(range := Some(Range(next, next + count - 1)))])
      && RenumberScan(pnrs, ps, q, next)
         == RenumberScan(pnrs[q[0] := pnrs[q[0]].(range := Some(Range(next, next + count - 1)))], ps, q[1..], next + count)
  {
  }

  /** The pass rewrites only ranges, and only those of the PNRs in the queue. */
  lemma {:induction false} RenumberKeeps(pnrs: map<int, Pnr>, ps: seq<Passenger>, q: seq<int>, next: int, x: int)
    requires forall r :: r in q ==> r in pnrs
    ensures RenumberScan(pnrs, ps, q, next).Keys == pnrs.Keys
    ensures x in pnrs ==> RenumberScan(pnrs, ps, q, next)[x] == pnrs[x].(range := RenumberScan(pnrs, ps, q, next)[x].range)
    ensures x in pnrs && x !in q ==> RenumberScan(pnrs, ps, q, next)[x] == pnrs[x]
    decreases |q|
  {
    if q != [] {
      var count := Tally(ps, OfPnr(q[0]));
      var pnrs1 := pnrs[q[0] := pnrs[q[0]].(range := Some(Range(next, next + count - 1)))];
      RenumberKeeps(pnrs1, ps, q[1..], next + count, x);
    }
  }

  /** The i-th PNR of the queue gets the ordinals just after those of the PNRs before it. */
  lemma {:induction false} RenumberLayout(pnrs: map<int, Pnr>, ps: seq<Passenger>, q: seq<int>, next: int, i: int)
    requires forall r :: r in q ==> r in pnrs
    requires Distinct(q) && 0 <= i < |q|
    ensures q[i] in RenumberScan(pnrs, ps, q, next)
    ensures RenumberScan(pnrs, ps, q, next)[q[i]].range
         == Some(Range(next + Width(ps, q[..i]), next + Width(ps, q[..i + 1]) - 1))
    decreases |q|
  {
    var count := Tally(ps, OfPnr(q[0]));
    var pnrs1 := pnrs[q[0] := pnrs[q[0]].(range := Some(Range(next, next + count - 1)))];
    var rest := q[1..];
    assert forall r :: r in rest ==> r in pnrs1;
    RenumberKeeps(pnrs1, ps, rest, next + count, q[i]);
    if i == 0 {
      assert q[0] !in rest;
      assert q[..1][1..] == [];
    } else {
      assert Distinct(rest);
      RenumberLayout(pnrs1, ps, rest, next + count, i - 1);
      assert q[..i][1..] == rest[..i - 1];
      assert q[..i + 1][1..] == rest[..i];
    }
  }

  /** After the pass started at 1, the queue's ranges are contiguous from 1 on: the first starts at 1,
      every PNR gets a range as wide as its passenger rows, and each range starts right after the one
      before it. */
  lemma RenumberContiguous(pnrs: map<int, Pnr>, ps: seq<Passenger>, q: seq<int>, i: int)
    requires forall r :: r in q ==> r in pnrs
    requires Distinct(q) && 0 <= i < |q|
    ensures var after := RenumberScan(pnrs, ps, q, 1);
      && q[0] in after && after[q[0]].range.Some? && after[q[0]].range.value.start == 1
      && q[i] in after && after[q[i]].range.Some?
      && after[q[i]].range.value.end - after[q[i]].range.value.start + 1 == Tally(ps, OfPnr(q[i]))
      && (i + 1 < |q| ==>
            && q[i + 1] in after && after[q[i + 1]].range.Some?
            && after[q[i + 1]].range.value.start == after[q[i]].range.value.end + 1)
  {
    RenumberLayout(pnrs, ps, q, 1, 0);
    assert q[..0] == [];
    RenumberLayout(pnrs, ps, q, 1, i);
    assert q[..i + 1] == q[..i] + [q[i]];
    WidthAppend(ps, q[..i], [q[i]]);
    if i + 1 < |q| {
      RenumberLayout(pnrs, ps, q, 1, i + 1);
    }
  }

  /** After the pass, a PNR's range ends before the range of any PNR later in the queue starts, so no
      two ranges overlap. */
  lemma RenumberOrdered(pnrs: map<int, Pnr>, ps: seq<Passenger>, q: seq<int>, i: int, j: int)
    requires forall r :: r in q ==> r in pnrs
    requires Distinct(q) && 0 <= i < j < |q|
    ensures var after := RenumberScan(pnrs, ps, q, 1);
      && q[i] in after && q[j] in after && after[q[i]].range.Some? && after[q[j]].range.Some?
      && after[q[i]].range.value.end < after[q[j]].range.value.start
  {
    RenumberLayout(pnrs, ps, q, 1, i);
    RenumberLayout(pnrs, ps, q, 1, j);
    assert q[..j] == q[..i + 1] + q[i + 1..j];
    WidthAppend(ps, q[..i + 1], q[i + 1..j]);
  }
}
