/**
 * The daily screen over all meters (dailyReconciliation): which get a verdict, which are listed and in what
 * order, how many survive, and what a verdict does to the confidence.
 */
module DailyVerdicts {
  import opened Common
  import opened Reals
  import opened Correlation
  import opened DailyScreen
  import Confidence

  type Id = int

  datatype Meta = Meta(ignored: bool, electric: bool)

  datatype Verdict = Verdict(score: real, pass: bool)

  datatype Listed = Listed(id: Id, pass: bool, score: real)

  /** What one screening works from: the analysed days with their monitored energy, the bill, the meters, what was asked for. */
  datatype Input = Input(
    ds: seq<Day>, monitored: seq<real>, bill: Option<Band>,
    perDay: map<Id, map<Day, real>>, meta: map<Id, Meta>, extra: seq<Id>)

  /** Enough days, each with positive monitored energy. */
  predicate Screenable(x: Input) {
    |x.ds| == |x.monitored| >= 3 && forall i :: 0 <= i < |x.monitored| ==> x.monitored[i] > 0.0
  }

  /** The meters the screen evaluates: known, and either asked for or electric and not ignored. */
  predicate Eligible(x: Input, id: Id) {
    id in x.perDay && id in x.meta && (id in x.extra || (!x.meta[id].ignored && x.meta[id].electric))
  }

  /** An unknown meter is never evaluated; one asked for always is; any other if it is electric and not ignored. */
  lemma EligibleMeters(x: Input, id: Id)
    requires id in x.perDay
    ensures id !in x.meta ==> !Eligible(x, id)
    ensures id in x.meta && id in x.extra ==> Eligible(x, id)
    ensures id in x.meta && id !in x.extra ==> (Eligible(x, id) <==> x.meta[id].electric && !x.meta[id].ignored)
  {
  }

  ghost predicate MeterPasses(x: Input, id: Id)
    requires Screenable(x) && id in x.perDay
  {
    Passes(x.perDay[id], x.ds, x.monitored, BandOf(Mean(x.monitored), x.bill))
  }

  ghost predicate Survives(x: Input, id: Id)
    requires Screenable(x)
  {
    Eligible(x, id) && MeterPasses(x, id)
  }

  ghost function Survivors(x: Input, ids: set<Id>): set<Id>
    requires Screenable(x)
  {
    set id | id in ids && Survives(x, id)
  }

  predicate GetsVerdict(x: Input, id: Id) {
    Eligible(x, id) && Covered(x.perDay[id], x.ds)
  }

  /** A verdict or a listed row says what the screen found, and its score is zero unless the meter passed. */
  ghost predicate IsRight(x: Input, id: Id, pass: bool, score: real)
    requires Screenable(x)
  {
    (pass <==> Survives(x, id)) && if pass then 0.3 <= score <= 1.0 else score == 0.0
  }

  /** Exactly the eligible meters with every day covered have a verdict, and it is the right one. */
  ghost predicate Judged(x: Input, verdicts: map<Id, Verdict>, ids: set<Id>)
    requires Screenable(x)
  {
    (forall id :: id in verdicts <==> id in ids && GetsVerdict(x, id)) &&
    forall id | id in verdicts :: IsRight(x, id, verdicts[id].pass, verdicts[id].score)
  }

  // ---- counting rows ---------------------------------------------------------------------------------

  /** Which listed rows to count: those that pass, or those of one meter. */
  datatype Criterion = Passing | OfMeter(id: Id)

  predicate Meets(row: Listed, c: Criterion) {
    match c
    case Passing => row.pass
    case OfMeter(id) => row.id == id
  }

  function Tally(rows: seq<Listed>, c: Criterion): nat {
    if rows == [] then 0 else (if Meets(rows[0], c) then 1 else 0) + Tally(rows[1..], c)
  }

  lemma {:induction false} TallyOneMore(rows: seq<Listed>, row: Listed, c: Criterion)
    ensures Tally(rows + [row], c) == Tally(rows, c) + if Meets(row, c) then 1 else 0
  {
    if rows == [] {
      assert rows + [row] == [row];
    } else {
      assert (rows + [row])[1..] == rows[1..] + [row];
      TallyOneMore(rows[1..], row, c);
    }
  }

  // ---- the order of the rows -------------------------------------------------------------------------

  /** The comparison of the final sort: passers first, then the higher score. */
  predicate Less(a: Listed, b: Listed) {
    if a.pass != b.pass then a.pass else a.score > b.score
  }

  /** A stable insertion: after all rows that are not worse. */
  function Insert(row: Listed, rows: seq<Listed>): seq<Listed> {
    if rows == [] || Less(row, rows[0]) then [row] + rows else [rows[0]] + Insert(row, rows[1..])
  }

  /** The rows in display order; rows that compare equal stay as they were. */
  function Ranked(rows: seq<Listed>): seq<Listed> {
    if rows == [] then [] else Insert(rows[|rows| - 1], Ranked(rows[..|rows| - 1]))
  }

  ghost predicate InOrder(rows: seq<Listed>) {
    forall i, j :: 0 <= i < j < |rows| ==> !Less(rows[j], rows[i])
  }

  lemma {:induction false} InsertMembers(row: Listed, rows: seq<Listed>, r: Listed)
    ensures r in Insert(row, rows) <==> r == row || r in rows
  {
    if rows != [] && !Less(row, rows[0]) {
      InsertMembers(row, rows[1..], r);
    }
  }

  lemma {:induction false} InsertTally(row: Listed, rows: seq<Listed>, c: Criterion)
    ensures Tally(Insert(row, rows), c) == Tally(rows, c) + if Meets(row, c) then 1 else 0
  {
    var more := Insert(row, rows);
    if rows == [] || Less(row, rows[0]) {
      assert more[1..] == rows;
    } else {
      assert more[1..] == Insert(row, rows[1..]);
      InsertTally(row, rows[1..], c);
    }
  }

  lemma InOrderTail(rows: seq<Listed>)
    requires rows != [] && InOrder(rows)
    ensures InOrder(rows[1..]) && forall r :: r in rows[1..] ==> !Less(r, rows[0])
  {
  }

  lemma InOrderCons(row: Listed, rows: seq<Listed>)
    requires InOrder(rows) && forall r :: r in rows ==> !Less(r, row)
    ensures InOrder([row] + rows)
  {
    var more := [row] + rows;
    forall i, j | 0 <= i < j < |more| ensures !Less(more[j], more[i]) {
      assert more[j] == rows[j - 1] && more[j] in rows;
      assert i > 0 ==> more[i] == rows[i - 1];
    }
  }

  lemma {:induction false} InsertKeepsOrder(row: Listed, rows: seq<Listed>)
    requires InOrder(rows)
    ensures InOrder(Insert(row, rows))
  {
    if rows == [] {
      InOrderCons(row, rows);
    } else {
      InOrderTail(rows);
      hide InOrder;
      if Less(row, rows[0]) {
        InOrderCons(row, rows);
      } else {
        InsertKeepsOrder(row, rows[1..]);
        forall r | r in Insert(row, rows[1..]) ensures !Less(r, rows[0]) {
          InsertMembers(row, rows[1..], r);
        }
        InOrderCons(rows[0], Insert(row, rows[1..]));
      }
    }
  }

  /** The ranking is in order and lists the same rows, each as often. */
  lemma {:induction false} RankedIsInOrder(rows: seq<Listed>, c: Criterion)
    ensures InOrder(Ranked(rows)) && Tally(Ranked(rows), c) == Tally(rows, c)
    ensures forall r :: r in Ranked(rows) <==> r in rows
  {
    if rows != [] {
      hide InOrder;
      var n := |rows| - 1;
      RankedIsInOrder(rows[..n], c);
      InsertKeepsOrder(rows[n], Ranked(rows[..n]));
      InsertTally(rows[n], Ranked(rows[..n]), c);
      TallyOneMore(rows[..n], rows[n], c);
      assert rows == rows[..n] + [rows[n]];
      forall r ensures r in Ranked(rows) <==> r in rows {
        InsertMembers(rows[n], Ranked(rows[..n]), r);
      }
    }
  }

  /** What the order means: every row that passes before every one that does not, and higher scores before lower. */
  lemma InOrderMeans(rows: seq<Listed>, i: nat, j: nat)
    requires InOrder(rows) && i < j < |rows|
    ensures rows[j].pass ==> rows[i].pass
    ensures rows[i].pass == rows[j].pass ==> rows[i].score >= rows[j].score
  {
    assert !Less(rows[j], rows[i]);
  }

  /** Two rows compare equal exactly when they agree in verdict and score. */
  lemma Alike(a: Listed, b: Listed)
    ensures !Less(a, b) && !Less(b, a) <==> a.pass == b.pass && a.score == b.score
  {
  }

  /** The rows that compare equal to r, in order. */
  function Like(rows: seq<Listed>, r: Listed): seq<Listed> {
    if rows == [] then []
    else (if !Less(rows[0], r) && !Less(r, rows[0]) then [rows[0]] else []) + Like(rows[1..], r)
  }

  lemma {:induction false} NoneLike(rows: seq<Listed>, r: Listed)
    requires forall s :: s in rows ==> Less(r, s)
    ensures Like(rows, r) == []
  {
    if rows != [] {
      NoneLike(rows[1..], r);
    }
  }

  lemma LikeHead(row: Listed, rows: seq<Listed>, r: Listed)
    ensures Like([row] + rows, r) == (if !Less(row, r) && !Less(r, row) then [row] else []) + Like(rows, r)
  {
    assert ([row] + rows)[1..] == rows;
  }

  lemma {:induction false} LikeInsert(row: Listed, rows: seq<Listed>, r: Listed)
    requires InOrder(rows)
    ensures Like(Insert(row, rows), r) == Like(rows, r) + if !Less(row, r) && !Less(r, row) then [row] else []
  {
    if rows == [] {
      LikeHead(row, [], r);
    } else {
      InOrderTail(rows);
      hide InOrder;
      if Less(row, rows[0]) {
        LikeHead(row, rows, r);
        if !Less(row, r) && !Less(r, row) {
          NoneLike(rows, r);
        }
      } else {
        LikeInsert(row, rows[1..], r);
        LikeHead(rows[0], Insert(row, rows[1..]), r);
      }
    }
  }

  /** Rows that compare equal keep the order they had. */
  lemma {:induction false} RankedIsStable(rows: seq<Listed>, r: Listed)
    ensures Like(Ranked(rows), r) == Like(rows, r)
  {
    if rows != [] {
      hide InOrder;
      var n := |rows| - 1;
      RankedIsStable(rows[..n], r);
      RankedIsInOrder(rows[..n], Passing);
      LikeInsert(rows[n], Ranked(rows[..n]), r);
      LikeLast(rows[..n], rows[n], r);
      assert rows == rows[..n] + [rows[n]];
    }
  }

  lemma {:induction false} LikeLast(rows: seq<Listed>, row: Listed, r: Listed)
    ensures Like(rows + [row], r) == Like(rows, r) + if !Less(row, r) && !Less(r, row) then [row] else []
  {
    if rows == [] {
      assert rows + [row] == [row] + [];
      LikeHead(row, [], r);
    } else {
      assert rows + [row] == [rows[0]] + (rows[1..] + [row]);
      LikeLast(rows[1..], row, r);
      LikeHead(rows[0], rows[1..] + [row], r);
    }
  }

  // ---- the screen ------------------------------------------------------------------------------------

  /** A meter with readings is listed if it was evaluated and either survives or was asked for. */
  ghost predicate IsListed(x: Input, id: Id)
    requires Screenable(x)
  {
    Eligible(x, id) && (id in x.extra || Survives(x, id))
  }

  /** How often each meter is listed: with readings at most once, without as often as it was asked for. */
  ghost predicate ListsRight(x: Input, rows: seq<Listed>)
    requires Screenable(x)
  {
    (forall id :: Tally(rows, OfMeter(id)) ==
      if id in x.perDay then (if IsListed(x, id) then 1 else 0) else multiset(x.extra)[id]) &&
    forall r :: r in rows ==> IsRight(x, r.id, r.pass, r.score)
  }

  function Taken(order: seq<Id>): set<Id> {
    set x | x in order
  }

  /** An order in which the keys of a map may be visited. */
  predicate IsOrderOf(order: seq<Id>, ids: set<Id>) {
    (forall i, j :: 0 <= i < j < |order| ==> order[i] != order[j]) && Taken(order) == ids
  }

  lemma TakeNext(order: seq<Id>, i: nat)
    requires i < |order| && IsOrderOf(order, Taken(order))
    ensures Taken(order[..i + 1]) == Taken(order[..i]) + {order[i]}
    ensures order[i] !in Taken(order[..i]) && Taken(order[..i + 1]) <= Taken(order)
  {
    assert order[..i + 1] == order[..i] + [order[i]];
  }

  lemma {:induction false} PositiveMean(xs: seq<real>)
    requires xs != [] && forall i :: 0 <= i < |xs| ==> xs[i] > 0.0
    ensures Sum(xs) > 0.0 && Mean(xs) > 0.0
  {
    var n := |xs| - 1;
    if n > 0 {
      PositiveMean(xs[..n]);
    }
    PosFactor(|xs| as real, Mean(xs));
  }

  /**
   * The screen over all meters, taken in any order. Exactly the eligible meters that cover every day get a
   * verdict, and it is the row's; exactly the survivors and what was asked for are listed, passers first and
   * by score; and the survivors are counted. Too few days give none of it.
   */
  method DailyReconciliation(x: Input, order: seq<Id>, sqrt: Sqrt, log: real -> real)
    returns (verdicts: map<Id, Verdict>, rows: seq<Listed>, survivors: nat)
    requires IsOrderOf(order, x.perDay.Keys)
    requires |x.ds| == |x.monitored| && forall i :: 0 <= i < |x.monitored| ==> x.monitored[i] > 0.0
    ensures |x.ds| < 3 ==> verdicts == map[] && rows == [] && survivors == 0
    ensures Screenable(x) ==> Judged(x, verdicts, x.perDay.Keys)
    ensures Screenable(x) ==> ListsRight(x, rows) && InOrder(rows)
    ensures Screenable(x) ==> survivors == |Survivors(x, x.perDay.Keys)|
  {
    verdicts, rows, survivors := map[], [], 0;
    if |x.ds| < MIN_DAYS {
      return;
    }
    hide Judged, ListsRight, InOrder, Survivors, Screenable;
    verdicts, rows := Evaluate(x, order, sqrt, log);
    rows := AddUnheard(x, rows);
    SortKeeps(x, rows);
    rows := Ranked(rows);
    survivors := CountPassing(rows);
  }

  /** Sorting the rows changes nothing but their order. */
  lemma SortKeeps(x: Input, rows: seq<Listed>)
    requires Screenable(x) && ListsRight(x, rows)
    ensures ListsRight(x, Ranked(rows)) && InOrder(Ranked(rows)) && Tally(Ranked(rows), Passing) == Tally(rows, Passing)
  {
    hide InOrder, IsRight, IsListed, Tally;
    RankedIsInOrder(rows, Passing);
    forall id ensures Tally(Ranked(rows), OfMeter(id)) == Tally(rows, OfMeter(id)) {
      RankedIsInOrder(rows, OfMeter(id));
    }
  }

  method CountPassing(rows: seq<Listed>) returns (n: nat)
    ensures n == Tally(rows, Passing)
  {
    n := 0;
    for i := 0 to |rows|
      invariant n == Tally(rows[..i], Passing)
    {
      assert rows[..i + 1] == rows[..i] + [rows[i]];
      TallyOneMore(rows[..i], rows[i], Passing);
      if rows[i].pass {
        n := n + 1;
      }
    }
    assert rows[..|rows|] == rows;
  }

  /** The rows of the meters visited so far. */
  ghost predicate ListsSoFar(x: Input, rows: seq<Listed>, done: set<Id>)
    requires Screenable(x)
  {
    (forall id :: Tally(rows, OfMeter(id)) == if id in done && IsListed(x, id) then 1 else 0) &&
    forall r :: r in rows ==> IsRight(x, r.id, r.pass, r.score)
  }

  /** The rows once the first n requests without readings have been added. */
  ghost predicate ListsUnheard(x: Input, rows: seq<Listed>, n: nat)
    requires Screenable(x) && n <= |x.extra|
  {
    (forall id :: Tally(rows, OfMeter(id)) ==
      if id in x.perDay then (if IsListed(x, id) then 1 else 0) else multiset(x.extra[..n])[id]) &&
    forall r :: r in rows ==> IsRight(x, r.id, r.pass, r.score)
  }

  /** Requests without any readings get an empty, failed row each. */
  method AddUnheard(x: Input, rows: seq<Listed>) returns (more: seq<Listed>)
    requires Screenable(x) && ListsSoFar(x, rows, x.perDay.Keys)
    ensures ListsRight(x, more) && Tally(more, Passing) == Tally(rows, Passing)
  {
    hide Tally, IsRight, IsListed, Screenable;
    more := rows;
    assert x.extra[..0] == [];
    for i := 0 to |x.extra|
      invariant ListsUnheard(x, more, i) && Tally(more, Passing) == Tally(rows, Passing)
    {
      if x.extra[i] !in x.perDay {
        OneMoreUnheard(x, more, i);
        TallyOneMore(more, Listed(x.extra[i], false, 0.0), Passing);
        more := more + [Listed(x.extra[i], false, 0.0)];
      } else {
        OneMoreHeard(x, more, i);
      }
    }
    assert x.extra[..|x.extra|] == x.extra;
  }

  lemma OneMoreUnheard(x: Input, rows: seq<Listed>, i: nat)
    requires Screenable(x) && i < |x.extra| && ListsUnheard(x, rows, i) && x.extra[i] !in x.perDay
    ensures ListsUnheard(x, rows + [Listed(x.extra[i], false, 0.0)], i + 1)
  {
    hide Tally, IsListed, Screenable;
    var row := Listed(x.extra[i], false, 0.0);
    assert x.extra[..i + 1] == x.extra[..i] + [x.extra[i]];
    forall id ensures Tally(rows + [row], OfMeter(id)) == Tally(rows, OfMeter(id)) + if row.id == id then 1 else 0 {
      TallyOneMore(rows, row, OfMeter(id));
    }
  }

  lemma OneMoreHeard(x: Input, rows: seq<Listed>, i: nat)
    requires Screenable(x) && i < |x.extra| && ListsUnheard(x, rows, i) && x.extra[i] in x.perDay
    ensures ListsUnheard(x, rows, i + 1)
  {
    hide Tally, IsListed, IsRight, Screenable;
    assert x.extra[..i + 1] == x.extra[..i] + [x.extra[i]];
  }

  /** The loop over the meters. */
  method Evaluate(x: Input, order: seq<Id>, sqrt: Sqrt, log: real -> real)
    returns (verdicts: map<Id, Verdict>, rows: seq<Listed>)
    requires IsOrderOf(order, x.perDay.Keys) && Screenable(x)
    ensures Judged(x, verdicts, x.perDay.Keys)
    ensures ListsSoFar(x, rows, x.perDay.Keys) && Tally(rows, Passing) == |Survivors(x, x.perDay.Keys)|
  {
    PositiveMean(x.monitored);
    hide Judged, ListsSoFar, Survivors, Mean, Screenable, GetsVerdict, IsRight, IsListed, Survives, Tally;
    var monAvg := MeanOf(x.monitored);
    verdicts, rows := map[], [];
    ghost var done: set<Id> := {};
    NoneYet(x);
    for i := 0 to |order|
      invariant done == Taken(order[..i])
      invariant Judged(x, verdicts, done) && ListsSoFar(x, rows, done)
      invariant Tally(rows, Passing) == |Survivors(x, done)|
    {
      var id := order[i];
      TakeNext(order, i);
      OneMoreSurvivor(x, done, id);
      var verdict, row := EvaluateOne(x, id, monAvg, sqrt, log);
      OneMoreVerdict(x, verdicts, verdict, done, id);
      OneMoreRow(x, rows, row, done, id);
      done := done + {id};
      if verdict.Some? {
        verdicts := verdicts[id := verdict.value];
      }
      if row.Some? {
        rows := rows + [row.value];
      }
    }
    assert order[..|order|] == order;
  }

  /** One pass of the loop over the meters: the verdict it records and the row it lists, if any. */
  method EvaluateOne(x: Input, id: Id, monAvg: real, sqrt: Sqrt, log: real -> real)
    returns (verdict: Option<Verdict>, row: Option<Listed>)
    requires Screenable(x) && id in x.perDay && monAvg == Mean(x.monitored) > 0.0
    ensures verdict.Some? <==> GetsVerdict(x, id)
    ensures verdict.Some? ==> IsRight(x, id, verdict.value.pass, verdict.value.score)
    ensures row.Some? <==> IsListed(x, id)
    ensures row.Some? ==> row.value.id == id && IsRight(x, id, row.value.pass, row.value.score)
  {
    verdict, row := None, None;
    if Eligible(x, id) {
      var r := new Row();
      r.EvalDailyRow(x.perDay[id], x.ds, x.monitored, monAvg, x.bill, sqrt, log);
      if |r.days| == |x.ds| {
        verdict := Some(Verdict(r.score, r.pass));
      }
      if r.pass || id in x.extra {
        row := Some(Listed(id, r.pass, r.score));
      }
    }
  }

  lemma NoneYet(x: Input)
    requires Screenable(x)
    ensures Judged(x, map[], {}) && ListsSoFar(x, [], {}) && Survivors(x, {}) == {} && Tally([], Passing) == 0
  {
  }

  lemma OneMoreVerdict(x: Input, verdicts: map<Id, Verdict>, verdict: Option<Verdict>, done: set<Id>, id: Id)
    requires Screenable(x) && id !in done && Judged(x, verdicts, done)
    requires verdict.Some? <==> GetsVerdict(x, id)
    requires verdict.Some? ==> IsRight(x, id, verdict.value.pass, verdict.value.score)
    ensures Judged(x, if verdict.Some? then verdicts[id := verdict.value] else verdicts, done + {id})
  {
    hide GetsVerdict, IsRight, Screenable;
  }

  lemma OneMoreRow(x: Input, rows: seq<Listed>, row: Option<Listed>, done: set<Id>, id: Id)
    requires Screenable(x) && id !in done && ListsSoFar(x, rows, done)
    requires row.Some? <==> IsListed(x, id)
    requires row.Some? ==> row.value.id == id && IsRight(x, id, row.value.pass, row.value.score)
    ensures ListsSoFar(x, if row.Some? then rows + [row.value] else rows, done + {id})
    ensures Tally(if row.Some? then rows + [row.value] else rows, Passing) ==
      Tally(rows, Passing) + if Survives(x, id) then 1 else 0
  {
    hide Tally, Screenable;
    if row.Some? {
      TallyOneMore(rows, row.value, Passing);
      forall i ensures Tally(rows + [row.value], OfMeter(i)) == Tally(rows, OfMeter(i)) + if i == id then 1 else 0 {
        TallyOneMore(rows, row.value, OfMeter(i));
      }
    }
  }

  lemma OneMoreSurvivor(x: Input, done: set<Id>, id: Id)
    requires Screenable(x) && id !in done
    ensures |Survivors(x, done + {id})| == |Survivors(x, done)| + if Survives(x, id) then 1 else 0
  {
    hide Survives, Screenable;
    var before, after := Survivors(x, done), Survivors(x, done + {id});
    if Survives(x, id) {
      assert after == before + {id};
    } else {
      assert after == before;
    }
  }

  // ---- what the verdict does to the confidence -------------------------------------------------------

  /** The verdict folded into the confidence signals; no verdict leaves them alone. */
  function WithVerdict(sig: Confidence.Signals, v: Option<Verdict>): Confidence.Signals {
    if v.None? then sig
    else if v.value.pass then sig.(physics := Some(v.value.score))
    else sig.(physicsViolation := true)
  }

  /** What a verdict does to an otherwise unscreened confidence: a pass counts its score for half, a failure leaves a fifth. */
  lemma VerdictShares(sig: Confidence.Signals, v: Verdict, sqrt: Sqrt, erfinv: real -> real)
    requires Confidence.Maths(sqrt, erfinv) && Confidence.Unscreened(sig) && 0.0 <= v.score <= 1.0
    ensures var c := Confidence.Confidence(sig, sqrt, erfinv);
      2.0 * Confidence.Confidence(WithVerdict(sig, Some(v.(pass := true))), sqrt, erfinv) == c + v.score &&
      5.0 * Confidence.Confidence(WithVerdict(sig, Some(v.(pass := false))), sqrt, erfinv) == c &&
      WithVerdict(sig, None) == sig
  {
    hide Confidence.Confidence;
    Confidence.PhysicsShare(sig, v.score, sqrt, erfinv);
  }

  /** A meter that fails on covered days can never score above 0.2, and one that passes never below 0.15. */
  lemma VerdictBoundsConfidence(sig: Confidence.Signals, v: Verdict, sqrt: Sqrt, erfinv: real -> real)
    requires Confidence.Maths(sqrt, erfinv) && !sig.physicsViolation
    requires v.pass ==> v.score >= 0.3
    ensures var c := Confidence.Confidence(WithVerdict(sig, Some(v)), sqrt, erfinv);
      if v.pass then 0.15 <= c <= 1.0 else 0.0 <= c <= 0.2
  {
    hide Confidence.Gated;
    Confidence.ConfidenceInRange(WithVerdict(sig, Some(v)), sqrt, erfinv);
    Confidence.GatedInUnit(WithVerdict(sig, Some(v)), sqrt, erfinv);
  }
}
