/** Who gets a bank in an admission pass of the coordinator: within one source, in request order. */
module SystemOrder {
  import opened Wrappers
  import opened SystemModel
  import opened SystemAdmission
  import opened SystemTurns
  import Fabric
  import FabricCalls
  import Hbm

  /** Every bank of the source is taken. */
  ghost predicate AllTaken(y: System, source: Fabric.Source) {
    && (if source.Hbf? then source.k < |y.fabric.hbf| else source.k < |y.fabric.hbm|)
    && forall b :: 0 <= b < |FabricCalls.BanksOf(y.fabric, source)| ==> FabricCalls.BanksOf(y.fabric, source)[b].Some?
  }

  /** The turn of record `r` leaves every other record and the time alone, and takes banks only of its own source, if one is free. */
  ghost predicate OwnTurn(y: System, z: System, r: nat) {
    && r < |y.records| == |z.records| && z.records == y.records[r := z.records[r]] && z.now == y.now
    && z.records[r].source == y.records[r].source && z.records[r].arrival == y.records[r].arrival
    && (forall source :: AllTaken(y, source) ==> AllTaken(z, source))
    && (y.records[r].stage.ExternalWait? && AllTaken(y, y.records[r].source) ==> z.records[r].stage.ExternalWait?)
    && (y.records[r].stage.ExternalWait? && z.records[r].stage.ExternalWait? && y.records[r].arrival <= y.now ==>
          AllTaken(y, y.records[r].source))
  }

  lemma ReserveTakesOwn(c: Fabric.Config, y: System, r: nat, z: System)
    requires r < |y.records| && |y.fabric.hbf| == |c.hbf| && |y.fabric.hbm| == |c.hbm|
    requires Reserve(c, y, r).Reserved? && z.fabric == Reserve(c, y, r).state
    ensures !AllTaken(y, y.records[r].source)
    ensures forall source :: AllTaken(y, source) ==> AllTaken(z, source)
  {
    var own := y.records[r].source;
    forall source | AllTaken(y, source) ensures AllTaken(z, source) {
      assert source != own;
      assert FabricCalls.BanksOf(z.fabric, source) == FabricCalls.BanksOf(y.fabric, source);
    }
  }

  lemma TurnIsOwn(c: Fabric.Config, rows: seq<Hbm.Row>, d: Device, y: System, z: System, r: nat)
    requires TurnOf(c, rows, d, y, z, r)
    ensures OwnTurn(y, z, r)
  {
    hide Inv, FabricCalls.ReserveSource;
    var rec := y.records[r];
    assert |y.fabric.hbf| == |c.hbf| && |y.fabric.hbm| == |c.hbm| by { FabricSizes(c, rows, y); }
    assert y.fabric.now == y.now by { RestsNow(y); }
    if rec.stage.ExternalWait? && rec.arrival <= y.now {
      ReserveAnswers(c, rows, y, r);
      if Reserve(c, y, r).Reserved? {
        ReserveTakesOwn(c, y, r, z);
      } else {
        FullMeans(c, y, r);
      }
    } else {
      assert z.fabric == y.fabric;
    }
  }

  lemma FabricSizes(c: Fabric.Config, rows: seq<Hbm.Row>, y: System)
    requires Inv(c, rows, y)
    ensures |y.fabric.hbf| == |c.hbf| && |y.fabric.hbm| == |c.hbm|
  {
  }

  lemma RestsNow(y: System)
    requires AtRest(y)
    ensures y.fabric.now == y.now
  {
  }

  lemma FullMeans(c: Fabric.Config, y: System, r: nat)
    requires r < |y.records| && |y.fabric.hbf| == |c.hbf| && |y.fabric.hbm| == |c.hbm| && Reserve(c, y, r).Full?
    ensures AllTaken(y, y.records[r].source)
  {
  }

  /** Between its own turns a record does not change, and banks that are all taken stay so. */
  lemma {:induction false} BetweenTurns(c: Fabric.Config, rows: seq<Hbm.Row>, d: Device, turns: seq<System>, a: nat, b: nat,
                                        q: nat, source: Fabric.Source)
    requires Turns(c, rows, d, turns) && a <= b < |turns| && q < |turns[a].records| && (q < a || b <= q)
    ensures |turns[b].records| == |turns[a].records| && turns[b].records[q] == turns[a].records[q] && turns[b].now == turns[a].now
    ensures AllTaken(turns[a], source) ==> AllTaken(turns[b], source)
    decreases b - a
  {
    hide TurnOf, AllTaken;
    if a < b {
      assert TurnOf(c, rows, d, turns[a], turns[a + 1], a);
      TurnIsOwn(c, rows, d, turns[a], turns[a + 1], a);
      BetweenTurns(c, rows, d, turns, a + 1, b, q, source);
    }
  }

  /**
   First come, first served: while an earlier request of the same source that has arrived is left without a bank, no
   later one gets one.
   */
  lemma PassIsFirstCome(c: Fabric.Config, rows: seq<Hbm.Row>, d: Device, y: System, z: System, i: nat, j: nat)
    requires InTurn(c, rows, d, y, z) && i < j < |y.records| && y.records[i].source == y.records[j].source
    requires y.records[i].stage.ExternalWait? && y.records[i].arrival <= y.now && y.records[j].stage.ExternalWait?
    ensures |z.records| == |y.records| && (z.records[i].stage.ExternalWait? ==> z.records[j].stage.ExternalWait?)
  {
    var n, source := |y.records|, y.records[i].source;
    var turns :| |turns| == n + 1 && turns[0] == y && turns[n] == z && Turns(c, rows, d, turns);
    hide TurnOf, AllTaken;
    assert TurnOf(c, rows, d, turns[i], turns[i + 1], i) && TurnOf(c, rows, d, turns[j], turns[j + 1], j);
    BetweenTurns(c, rows, d, turns, 0, i, i, source);
    TurnIsOwn(c, rows, d, turns[i], turns[i + 1], i);
    BetweenTurns(c, rows, d, turns, i + 1, n, i, source);
    BetweenTurns(c, rows, d, turns, 0, j, j, source);
    BetweenTurns(c, rows, d, turns, i, j, j, source);
    TurnIsOwn(c, rows, d, turns[j], turns[j + 1], j);
    BetweenTurns(c, rows, d, turns, j + 1, n, j, source);
  }
}
