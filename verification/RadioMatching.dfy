/** Which radio unit (RU) each UE carrier of the UE softmodem uses: RUs are wired 1:1 to cells, cells
    are lent to carriers, and a carrier that changes frequency moves to the nearest free cell. */
module RadioMatching {
  import opened Arithmetic
  import opened Helpers

  // ------------------------------------------------------------------ the tables

  /** Cells and RUs point at each other; an RU without a cell holds -1. */
  predicate Wired(usedByCell: seq<int>, ruOf: seq<int>) {
    && (forall c :: 0 <= c < |ruOf| ==> 0 <= ruOf[c] < |usedByCell| && usedByCell[ruOf[c]] == c)
    && (forall r :: 0 <= r < |usedByCell| ==>
          -1 <= usedByCell[r] < |ruOf| && (usedByCell[r] >= 0 ==> ruOf[usedByCell[r]] == r))
  }

  /** The cell of a carrier's RU. */
  function CellOf(usedByCell: seq<int>, card: seq<int>, u: nat): int
    requires u < |card| && 0 <= card[u] < |usedByCell|
  {
    usedByCell[card[u]]
  }

  predicate Serves(usedByCell: seq<int>, card: seq<int>, u: nat, c: int) {
    u < |card| && 0 <= card[u] < |usedByCell| && CellOf(usedByCell, card, u) == c
  }

  /** Every carrier uses the cell that is lent to its UE, no two carriers share an RU, and every lent
      cell serves some carrier. */
  ghost predicate Owned(usedByCell: seq<int>, usedByUe: seq<int>, card: seq<int>, modId: seq<nat>) {
    && |card| == |modId|
    && (forall u :: 0 <= u < |card| ==> 0 <= card[u] < |usedByCell|)
    && (forall u: nat :: u < |card| ==> 0 <= CellOf(usedByCell, card, u) < |usedByUe|
                                        && usedByUe[CellOf(usedByCell, card, u)] == modId[u])
    && (forall u, v :: 0 <= u < v < |card| ==> card[u] != card[v])
    && (forall c :: 0 <= c < |usedByUe| ==> usedByUe[c] >= -1)
    && (forall c :: 0 <= c < |usedByUe| && usedByUe[c] >= 0 ==> exists u: nat :: Serves(usedByCell, card, u, c))
  }

  /** An RU whose cell is not lent to any UE. */
  predicate Free(usedByCell: seq<int>, usedByUe: seq<int>, r: nat) {
    && r < |usedByCell|
    && 0 <= usedByCell[r] < |usedByUe|
    && usedByUe[usedByCell[r]] < 0
  }

  function Gap(a: nat, b: nat): nat {
    if a > b then a - b else b - a
  }

  /** Carriers of a cell or of a request. */
  datatype Carriers = Carriers(dl: nat, ul: nat)

  /** A frequency change of a carrier, with the cells' carriers at that time. */
  datatype Change = Change(carrier: nat, wanted: Carriers, cells: seq<Carriers>)

  function Distance(cell: Carriers, wanted: Carriers): nat {
    Gap(cell.dl, wanted.dl) + Gap(cell.ul, wanted.ul)
  }

  /** Only the wanted carriers are at no distance, and moving either carrier one step away from the wanted one
      adds one, whichever side it is on. */
  lemma DistanceMeasures(cell: Carriers, wanted: Carriers)
    ensures Distance(cell, wanted) == 0 <==> cell == wanted
    ensures var d := Distance(cell, wanted);
            && (cell.dl >= wanted.dl ==> Distance(cell.(dl := cell.dl + 1), wanted) == d + 1)
            && (cell.ul >= wanted.ul ==> Distance(cell.(ul := cell.ul + 1), wanted) == d + 1)
            && (0 < cell.dl <= wanted.dl ==> Distance(cell.(dl := cell.dl - 1), wanted) == d + 1)
            && (0 < cell.ul <= wanted.ul ==> Distance(cell.(ul := cell.ul - 1), wanted) == d + 1)
  {
  }

  /** Distance of the cell wired to an RU. */
  function DistanceAt(usedByCell: seq<int>, cells: seq<Carriers>, wanted: Carriers, r: nat): nat
    requires r < |usedByCell| && 0 <= usedByCell[r] < |cells|
  {
    Distance(cells[usedByCell[r]], wanted)
  }

  /** `best` is the nearest RU among `was` and the free ones: `was` itself if it is as near as any,
      otherwise the first of the nearest free ones. */
  ghost predicate IsNearest(usedByCell: seq<int>, usedByUe: seq<int>, cells: seq<Carriers>, wanted: Carriers,
                            was: int, best: int) {
    && |cells| == |usedByUe| && 0 <= was < |usedByCell| && 0 <= best < |usedByCell|
    && 0 <= usedByCell[was] < |cells| && 0 <= usedByCell[best] < |cells|
    && (best == was || Free(usedByCell, usedByUe, best))
    && var least := DistanceAt(usedByCell, cells, wanted, best);
       && least <= DistanceAt(usedByCell, cells, wanted, was)
       && (least == DistanceAt(usedByCell, cells, wanted, was) ==> best == was)
       && forall r: nat :: Free(usedByCell, usedByUe, r) ==>
            least <= DistanceAt(usedByCell, cells, wanted, r)
            && (r < best && best != was ==> least < DistanceAt(usedByCell, cells, wanted, r))
  }

  /** The nearest RU has the wanted carriers exactly when one of those to choose from has. */
  lemma NearestMatches(usedByCell: seq<int>, usedByUe: seq<int>, cells: seq<Carriers>, wanted: Carriers,
                       was: int, best: int)
    requires IsNearest(usedByCell, usedByUe, cells, wanted, was, best)
    ensures cells[usedByCell[best]] == wanted <==>
              || cells[usedByCell[was]] == wanted
              || exists r: nat :: Free(usedByCell, usedByUe, r) && cells[usedByCell[r]] == wanted
  {
    DistanceMeasures(cells[usedByCell[best]], wanted);
    DistanceMeasures(cells[usedByCell[was]], wanted);
    if r: nat :| Free(usedByCell, usedByUe, r) && cells[usedByCell[r]] == wanted {
      DistanceMeasures(cells[usedByCell[r]], wanted);
      assert DistanceAt(usedByCell, cells, wanted, r) == 0;
    }
  }

  // ------------------------------------------------------------------ operations

  class Radios {
    var usedByCell: seq<int>
    const ruOf: seq<int>
    var usedByUe: seq<int>
    var card: seq<int>
    var modId: seq<nat>
    var firstTs: seq<Option<int>>

    ghost predicate Valid()
      reads this
    {
      && Wired(usedByCell, ruOf)
      && Owned(usedByCell, usedByUe, card, modId)
      && |usedByUe| == |ruOf|
      && |firstTs| == |usedByCell|
    }

    constructor (rus: nat, ruOf: seq<int>)
      ensures this.ruOf == ruOf && |usedByCell| == |firstTs| == rus && |usedByUe| == |ruOf|
      ensures forall r :: 0 <= r < rus ==> usedByCell[r] == -1 && firstTs[r] == None
      ensures forall c :: 0 <= c < |ruOf| ==> usedByUe[c] == -1
      ensures card == [] && modId == []
    {
      this.ruOf := ruOf;
      usedByCell, usedByUe := seq(rus, i => -1), seq(|ruOf|, i => -1);
      card, modId, firstTs := [], [], seq(rus, i => None);
    }

    /** Wire the cells to their RUs: accepted exactly when the configured RUs exist and differ. */
    method Connect() returns (ok: bool)
      requires forall r :: 0 <= r < |usedByCell| ==> usedByCell[r] == -1
      modifies this`usedByCell
      ensures |usedByCell| == old(|usedByCell|)
      ensures ok <==> (forall c :: 0 <= c < |ruOf| ==> 0 <= ruOf[c] < |usedByCell|)
                      && (forall c, d :: 0 <= c < d < |ruOf| ==> ruOf[c] != ruOf[d])
      ensures ok ==> Wired(usedByCell, ruOf)
    {
      var c := 0;
      while c < |ruOf|
        invariant 0 <= c <= |ruOf| && |usedByCell| == old(|usedByCell|)
        invariant forall i, j :: 0 <= i < j < c ==> ruOf[i] != ruOf[j]
        invariant forall i :: 0 <= i < c ==> 0 <= ruOf[i] < |usedByCell| && usedByCell[ruOf[i]] == i
        invariant forall r :: 0 <= r < |usedByCell| ==>
                    -1 <= usedByCell[r] < c && (usedByCell[r] >= 0 ==> ruOf[usedByCell[r]] == r)
      {
        if !(0 <= ruOf[c] < |usedByCell|) || usedByCell[ruOf[c]] != -1 {
          return false;
        }
        usedByCell := usedByCell[ruOf[c] := c];
        c := c + 1;
      }
      ok := true;
    }

    /** Give each carrier of each UE a cell of its own, in order: accepted exactly when there are enough
        cells, and then every carrier sits on the RU of the cell with its own number. */
    method Assign(ues: nat, ccs: nat) returns (ok: bool)
      requires Valid() && card == []
      modifies this`usedByUe, this`card, this`modId
      ensures Valid()
      ensures ok <==> ues * ccs <= |ruOf|
      ensures ok ==> |card| == ues * ccs && card == ruOf[..|card|]
      ensures ok ==> forall u :: 0 <= u < |card| ==> ccs > 0 && modId[u] == u / ccs
    {
      var inst := 0;
      assert card == ruOf[..0];
      while inst < ues
        invariant 0 <= inst <= ues && Valid()
        invariant |card| == inst * ccs <= |ruOf| && Prefix()
        invariant forall u :: 0 <= u < |card| ==> ccs > 0 && modId[u] == u / ccs
      {
        MulDistributes(inst, 1, ccs);
        MulMonotone(inst + 1, ues, ccs);
        ok := AssignUe(inst, ccs);
        if !ok {
          return;
        }
        inst := inst + 1;
      }
      ok := true;
    }

    /** The carriers so far use the first cells, and no other cell is lent. */
    ghost predicate Prefix()
      reads this
    {
      && |card| <= |ruOf| == |usedByUe| && card == ruOf[..|card|]
      && forall c :: |card| <= c < |usedByUe| ==> usedByUe[c] == -1
    }

    method AssignUe(inst: nat, ccs: nat) returns (ok: bool)
      requires Valid() && Prefix() && |card| == inst * ccs
      requires forall u :: 0 <= u < |card| ==> ccs > 0 && modId[u] == u / ccs
      modifies this`usedByUe, this`card, this`modId
      ensures Valid() && Prefix()
      ensures ok <==> old(|card|) + ccs <= |ruOf|
      ensures ok ==> |card| == old(|card|) + ccs
      ensures forall u :: 0 <= u < |card| ==> ccs > 0 && modId[u] == u / ccs
    {
      var cc := 0;
      while cc < ccs
        invariant 0 <= cc <= ccs && Valid() && Prefix() && |card| == inst * ccs + cc
        invariant forall u :: 0 <= u < |card| ==> ccs > 0 && modId[u] == u / ccs
      {
        if |card| >= |ruOf| {
          return false;
        }
        DivModUnique(inst, ccs, cc);
        Lend(inst);
        cc := cc + 1;
      }
      ok := true;
    }

    method Lend(inst: nat)
      requires Valid() && Prefix() && |card| < |ruOf|
      modifies this`usedByUe, this`card, this`modId
      ensures Valid() && Prefix()
      ensures card == old(card) + [ruOf[old(|card|)]] && modId == old(modId) + [inst]
    {
      var cell := |card|;
      usedByUe := usedByUe[cell := inst];
      card := card + [ruOf[cell]];
      modId := modId + [inst];
      LendKeeps(usedByCell, ruOf, old(usedByUe), old(card), old(modId), cell, inst);
    }

    /** A frequency change moves the carrier to the RU of least total carrier distance among its own and
        the free ones: its own if that is as near, otherwise the first of the nearest. */
    method SetFreq(u: nat, wanted: Carriers, cells: seq<Carriers>)
      requires Valid() && u < |card| && |cells| == |usedByUe|
      modifies this`usedByUe, this`card
      ensures Valid()
      ensures card == old(card)[u := card[u]]
      ensures IsNearest(usedByCell, old(usedByUe), cells, wanted, old(card)[u], card[u])
      ensures usedByUe == old(usedByUe)[usedByCell[old(card)[u]] := -1][usedByCell[card[u]] := modId[u]]
      ensures cells[usedByCell[card[u]]] == wanted <==>
                || cells[usedByCell[old(card)[u]]] == wanted
                || exists r: nat :: Free(usedByCell, old(usedByUe), r) && cells[usedByCell[r]] == wanted
    {
      assert 0 <= CellOf(usedByCell, card, u) < |usedByUe|;
      var current := usedByCell[card[u]];
      var chosen := Nearest(card[u], wanted, cells);
      card := card[u := chosen];
      usedByUe := usedByUe[current := -1];
      current := usedByCell[chosen];
      usedByUe := usedByUe[current := modId[u]];
      MoveKeeps(usedByCell, ruOf, old(usedByUe), old(card), modId, u, chosen);
      NearestMatches(usedByCell, old(usedByUe), cells, wanted, old(card)[u], chosen);
    }

    /** The search loop, with its early stop at distance zero. */
    method Nearest(was: nat, wanted: Carriers, cells: seq<Carriers>) returns (best: nat)
      requires Valid() && |cells| == |usedByUe|
      requires was < |usedByCell| && usedByCell[was] >= 0
      ensures IsNearest(usedByCell, usedByUe, cells, wanted, was, best)
    {
      best := was;
      var distance := Distance(cells[usedByCell[was]], wanted);
      var r := 0;
      while distance != 0 && r < |usedByCell|
        invariant 0 <= r <= |usedByCell| && best < |usedByCell| && usedByCell[best] >= 0
        invariant best == was || (best < r && Free(usedByCell, usedByUe, best))
        invariant distance == DistanceAt(usedByCell, cells, wanted, best)
        invariant distance <= DistanceAt(usedByCell, cells, wanted, was)
        invariant distance == DistanceAt(usedByCell, cells, wanted, was) ==> best == was
        invariant forall q: nat :: q < r && Free(usedByCell, usedByUe, q) ==>
                    distance <= DistanceAt(usedByCell, cells, wanted, q)
                    && (q < best && best != was ==> distance < DistanceAt(usedByCell, cells, wanted, q))
      {
        var cell := usedByCell[r];
        if cell >= 0 && usedByUe[cell] < 0 {
          var candidate := Distance(cells[cell], wanted);
          if candidate < distance {
            best, distance := r, candidate;
          }
        }
        r := r + 1;
      }
    }

    /** A carrier reads its own RU; UE 0 also drains every free one, in ascending order. `ts` are the
        timestamps the devices would return. Each device counts from the first read it ever served. */
    method Read(u: nat, ts: seq<int>) returns (time: int, visited: seq<nat>)
      requires Valid() && u < |card| && |ts| == |usedByCell|
      modifies this`firstTs
      ensures Valid()
      ensures forall r: nat :: Occurrences(visited, r) == ReadsOf(usedByCell, usedByUe, card, modId, u, r)
      ensures forall r :: 0 <= r < |firstTs| ==>
                firstTs[r] == if r in visited && old(firstTs)[r].None? then Some(ts[r]) else old(firstTs)[r]
      ensures firstTs[card[u]].Some? && time == ts[card[u]] - firstTs[card[u]].value
    {
      var own := card[u];
      Touch(own, ts[own]);
      time := ts[own] - firstTs[own].value;
      visited := [own];
      OccurrencesOfOne(own);
      assert usedByUe[CellOf(usedByCell, card, u)] == modId[u];
      if modId[u] == 0 {
        var rest := Drain(ts);
        OccurrencesConcat([own], rest);
        visited := [own] + rest;
      }
    }

    /** Read calls of carriers, one after the other. */
    method Round(order: seq<nat>, ts: seq<seq<int>>) returns (visited: seq<nat>)
      requires Valid() && |ts| == |order|
      requires forall i :: 0 <= i < |order| ==> order[i] < |card| && |ts[i]| == |usedByCell|
      modifies this`firstTs
      ensures Valid()
      ensures forall r: nat :: Occurrences(visited, r) == RoundReads(usedByCell, usedByUe, card, modId, order, r)
    {
      visited := [];
      var i := 0;
      while i < |order|
        invariant 0 <= i <= |order| && Valid()
        invariant forall r: nat ::
                    Occurrences(visited, r) == RoundReads(usedByCell, usedByUe, card, modId, order[..i], r)
      {
        var _, more := Read(order[i], ts[i]);
        assert order[..i + 1][..i] == order[..i];
        OccurrencesConcat(visited, more);
        visited := visited + more;
        i := i + 1;
      }
      assert order[..i] == order;
    }

    /** Any sequence of frequency changes. */
    method Retune(changes: seq<Change>)
      requires Valid()
      requires forall i :: 0 <= i < |changes| ==> changes[i].carrier < |card| && |changes[i].cells| == |usedByUe|
      modifies this`usedByUe, this`card
      ensures Valid() && |card| == old(|card|) && |usedByUe| == old(|usedByUe|)
    {
      var i := 0;
      while i < |changes|
        invariant 0 <= i <= |changes| && Valid() && |card| == old(|card|) && |usedByUe| == old(|usedByUe|)
      {
        SetFreq(changes[i].carrier, changes[i].wanted, changes[i].cells);
        i := i + 1;
      }
    }

    method Touch(r: nat, ts: int)
      requires r < |firstTs|
      modifies this`firstTs
      ensures firstTs == old(firstTs)[r := if old(firstTs)[r].None? then Some(ts) else old(firstTs)[r]]
    {
      if firstTs[r].None? {
        firstTs := firstTs[r := Some(ts)];
      }
    }

    method Drain(ts: seq<int>) returns (visited: seq<nat>)
      requires Valid() && |ts| == |usedByCell|
      modifies this`firstTs
      ensures Valid()
      ensures forall r: nat :: Occurrences(visited, r) == if Free(usedByCell, usedByUe, r) then 1 else 0
      ensures forall r: nat :: r in visited <==> Free(usedByCell, usedByUe, r)
      ensures forall r :: 0 <= r < |firstTs| ==>
                firstTs[r] == if r in visited && old(firstTs)[r].None? then Some(ts[r]) else old(firstTs)[r]
    {
      visited := [];
      var r := 0;
      while r < |usedByCell|
        invariant 0 <= r <= |usedByCell| && |firstTs| == |usedByCell|
        invariant forall q: nat :: Occurrences(visited, q) == if q < r && Free(usedByCell, usedByUe, q) then 1 else 0
        invariant forall q: nat :: q in visited <==> q < r && Free(usedByCell, usedByUe, q)
        invariant forall q :: 0 <= q < |firstTs| ==>
                    firstTs[q] == if q in visited && old(firstTs)[q].None? then Some(ts[q]) else old(firstTs)[q]
      {
        var cell := usedByCell[r];
        if cell >= 0 && usedByUe[cell] < 0 {
          Touch(r, ts[r]);
          assert (visited + [r])[..|visited|] == visited;
          visited := visited + [r];
        }
        r := r + 1;
      }
    }
  }

  // ------------------------------------------------------------------ lemmas

  lemma LendKeeps(usedByCell: seq<int>, ruOf: seq<int>, usedByUe: seq<int>, card: seq<int>, modId: seq<nat>,
                  cell: nat, inst: nat)
    requires Wired(usedByCell, ruOf) && Owned(usedByCell, usedByUe, card, modId)
    requires cell == |card| < |ruOf| == |usedByUe| && card == ruOf[..cell]
    ensures Owned(usedByCell, usedByUe[cell := inst], card + [ruOf[cell]], modId + [inst])
  {
    var card', used' := card + [ruOf[cell]], usedByUe[cell := inst];
    forall c | 0 <= c < |used'| && used'[c] >= 0
      ensures exists u: nat :: Serves(usedByCell, card', u, c)
    {
      if c == cell {
        assert Serves(usedByCell, card', cell, c);
      } else {
        var u: nat :| Serves(usedByCell, card, u, c);
        assert Serves(usedByCell, card', u, c);
      }
    }
    forall u: nat | u < |card'|
      ensures 0 <= CellOf(usedByCell, card', u) < |used'| && used'[CellOf(usedByCell, card', u)] == (modId + [inst])[u]
    {
      if u < cell {
        assert CellOf(usedByCell, card, u) == u;
      }
    }
  }

  lemma MoveKeeps(usedByCell: seq<int>, ruOf: seq<int>, usedByUe: seq<int>, card: seq<int>, modId: seq<nat>,
                  u: nat, r: nat)
    requires Wired(usedByCell, ruOf) && Owned(usedByCell, usedByUe, card, modId) && |usedByUe| == |ruOf|
    requires u < |card| && (r == card[u] || Free(usedByCell, usedByUe, r))
    ensures 0 <= usedByCell[card[u]] < |usedByUe| && 0 <= usedByCell[r] < |usedByUe|
    ensures Owned(usedByCell, usedByUe[usedByCell[card[u]] := -1][usedByCell[r] := modId[u]], card[u := r], modId)
  {
    var from := CellOf(usedByCell, card, u);
    var to := usedByCell[r];
    var card', used' := card[u := r], usedByUe[from := -1][to := modId[u]];
    forall v: nat | v < |card|
      ensures v != u ==> card[v] != r && CellOf(usedByCell, card, v) != from && CellOf(usedByCell, card, v) != to
      ensures CellOf(usedByCell, card', v) == if v == u then to else CellOf(usedByCell, card, v)
    {
      assert usedByUe[CellOf(usedByCell, card, v)] == modId[v];
    }
    forall c | 0 <= c < |used'| && used'[c] >= 0
      ensures exists v: nat :: Serves(usedByCell, card', v, c)
    {
      if c == to {
        assert Serves(usedByCell, card', u, c);
      } else {
        var v: nat :| Serves(usedByCell, card, v, c);
        assert Serves(usedByCell, card', v, c);
      }
    }
  }

  function Occurrences(s: seq<nat>, x: nat): nat {
    if s == [] then 0 else Occurrences(s[..|s| - 1], x) + if s[|s| - 1] == x then 1 else 0
  }

  lemma OccurrencesOfOne(x: nat)
    ensures forall y: nat :: Occurrences([x], y) == if x == y then 1 else 0
  {
  }

  lemma {:induction false} OccurrencesConcat(a: seq<nat>, b: seq<nat>)
    ensures forall x: nat :: Occurrences(a + b, x) == Occurrences(a, x) + Occurrences(b, x)
  {
    if b == [] {
      assert a + b == a;
    } else {
      assert (a + b)[..|a + b| - 1] == a + b[..|b| - 1];
      OccurrencesConcat(a, b[..|b| - 1]);
    }
  }

  /** How often one read call of a carrier reads an RU. */
  function ReadsOf(usedByCell: seq<int>, usedByUe: seq<int>, card: seq<int>, modId: seq<nat>, u: nat, r: nat): nat
    requires u < |card| == |modId|
  {
    (if card[u] == r then 1 else 0) + (if modId[u] == 0 && Free(usedByCell, usedByUe, r) then 1 else 0)
  }

  /** How often the read calls of carriers, in some order, read an RU. */
  function RoundReads(usedByCell: seq<int>, usedByUe: seq<int>, card: seq<int>, modId: seq<nat>, order: seq<nat>,
                      r: nat): nat
    requires |card| == |modId| && forall i :: 0 <= i < |order| ==> order[i] < |card|
  {
    if order == [] then 0
    else RoundReads(usedByCell, usedByUe, card, modId, order[..|order| - 1], r)
         + ReadsOf(usedByCell, usedByUe, card, modId, order[|order| - 1], r)
  }

  /** How many of the carriers in an order belong to UE 0. */
  function OfUeZero(modId: seq<nat>, order: seq<nat>): nat
    requires forall i :: 0 <= i < |order| ==> order[i] < |modId|
  {
    if order == [] then 0
    else OfUeZero(modId, order[..|order| - 1]) + if modId[order[|order| - 1]] == 0 then 1 else 0
  }

  /** Each carrier once, in any order. */
  predicate IsRound(order: seq<nat>, carriers: nat) {
    && (forall i :: 0 <= i < |order| ==> order[i] < carriers)
    && (forall u: nat :: u < carriers ==> Occurrences(order, u) == 1)
  }

  lemma {:induction false} ReadsSplit(usedByCell: seq<int>, usedByUe: seq<int>, card: seq<int>, modId: seq<nat>,
                                      order: seq<nat>, r: nat, w: nat)
    requires Owned(usedByCell, usedByUe, card, modId) && forall i :: 0 <= i < |order| ==> order[i] < |card|
    requires forall u: nat :: u < |card| && card[u] == r ==> u == w
    ensures RoundReads(usedByCell, usedByUe, card, modId, order, r)
         == (if w < |card| && card[w] == r then Occurrences(order, w) else 0)
          + (if Free(usedByCell, usedByUe, r) then OfUeZero(modId, order) else 0)
  {
    if order != [] {
      ReadsSplit(usedByCell, usedByUe, card, modId, order[..|order| - 1], r, w);
    }
  }

  /** In a round where every carrier reads once, whatever the order, an RU lent to a carrier is read
      exactly once, an RU without a cell never, and a free RU once per carrier of UE 0. */
  lemma EveryRadioIsRead(usedByCell: seq<int>, ruOf: seq<int>, usedByUe: seq<int>, card: seq<int>, modId: seq<nat>,
                         order: seq<nat>, r: nat)
    requires Wired(usedByCell, ruOf) && Owned(usedByCell, usedByUe, card, modId) && |usedByUe| == |ruOf|
    requires IsRound(order, |card|) && r < |usedByCell|
    ensures RoundReads(usedByCell, usedByUe, card, modId, order, r)
         == if usedByCell[r] < 0 then 0
            else if usedByUe[usedByCell[r]] >= 0 then 1
            else OfUeZero(modId, order)
  {
    if usedByCell[r] >= 0 && usedByUe[usedByCell[r]] >= 0 {
      var w: nat :| Serves(usedByCell, card, w, usedByCell[r]);
      assert ruOf[CellOf(usedByCell, card, w)] == card[w] == r;
      ReadsSplit(usedByCell, usedByUe, card, modId, order, r, w);
    } else {
      forall u: nat | u < |card|
        ensures card[u] != r
      {
        assert 0 <= CellOf(usedByCell, card, u) < |usedByUe|;
      }
      ReadsSplit(usedByCell, usedByUe, card, modId, order, r, 0);
    }
  }

  /** How often the carriers below `n` occur in an order. */
  function OccurrencesBelow(order: seq<nat>, n: nat): nat {
    if n == 0 then 0 else OccurrencesBelow(order, n - 1) + Occurrences(order, n - 1)
  }

  lemma {:induction false} OneMoreBelow(order: seq<nat>, n: nat)
    requires order != []
    ensures OccurrencesBelow(order, n)
         == OccurrencesBelow(order[..|order| - 1], n) + if order[|order| - 1] < n then 1 else 0
  {
    if n > 0 {
      OneMoreBelow(order, n - 1);
    }
  }

  lemma {:induction false} NoneBelow(n: nat)
    ensures OccurrencesBelow([], n) == 0
  {
    if n > 0 {
      NoneBelow(n - 1);
    }
  }

  lemma {:induction false} UeZeroIsBelow(modId: seq<nat>, order: seq<nat>, ccs: nat)
    requires forall i :: 0 <= i < |order| ==> order[i] < |modId|
    requires forall u :: 0 <= u < |modId| ==> (modId[u] == 0 <==> u < ccs)
    ensures OfUeZero(modId, order) == OccurrencesBelow(order, ccs)
  {
    if order == [] {
      NoneBelow(ccs);
    } else {
      UeZeroIsBelow(modId, order[..|order| - 1], ccs);
      OneMoreBelow(order, ccs);
    }
  }

  lemma {:induction false} RoundBelow(order: seq<nat>, carriers: nat, n: nat)
    requires IsRound(order, carriers) && n <= carriers
    ensures OccurrencesBelow(order, n) == n
  {
    if n > 0 {
      RoundBelow(order, carriers, n - 1);
    }
  }

  /** The carriers of UE 0 in a round, when the UEs have `ccs` component carriers each. */
  lemma CarriersOfUeZero(modId: seq<nat>, order: seq<nat>, ccs: nat)
    requires ccs > 0 && ccs <= |modId| && IsRound(order, |modId|)
    requires forall u :: 0 <= u < |modId| ==> modId[u] == u / ccs
    ensures OfUeZero(modId, order) == ccs
  {
    forall u | 0 <= u < |modId|
      ensures modId[u] == 0 <==> u < ccs
    {
      var q, r := Divide(u, ccs);
      if q > 0 {
        MulMonotone(1, q, ccs);
      } else {
        DivModUnique(0, ccs, r);
      }
    }
    UeZeroIsBelow(modId, order, ccs);
    RoundBelow(order, |modId|, ccs);
  }

  /** What a round reads of one RU. */
  function ReadsPerRound(usedByCell: seq<int>, usedByUe: seq<int>, ccs: nat, r: nat): nat
    requires r < |usedByCell| && (usedByCell[r] >= 0 ==> usedByCell[r] < |usedByUe|)
  {
    if usedByCell[r] < 0 then 0 else if usedByUe[usedByCell[r]] >= 0 then 1 else ccs
  }

  /** In a round, in any order, an RU lent to a carrier is read once, one without a cell never, and a free
      one once per component carrier of UE 0: so with a single component carrier every RU that has a cell is
      read exactly once. */
  lemma EveryRadioPerRound(usedByCell: seq<int>, ruOf: seq<int>, usedByUe: seq<int>, card: seq<int>, modId: seq<nat>,
                           order: seq<nat>, ccs: nat, r: nat)
    requires Wired(usedByCell, ruOf) && Owned(usedByCell, usedByUe, card, modId) && |usedByUe| == |ruOf|
    requires 0 < ccs <= |modId| && forall u :: 0 <= u < |modId| ==> modId[u] == u / ccs
    requires IsRound(order, |card|) && r < |usedByCell|
    ensures RoundReads(usedByCell, usedByUe, card, modId, order, r) == ReadsPerRound(usedByCell, usedByUe, ccs, r)
  {
    EveryRadioIsRead(usedByCell, ruOf, usedByUe, card, modId, order, r);
    CarriersOfUeZero(modId, order, ccs);
  }

  lemma TwoInARound()
    ensures IsRound([0, 1], 2)
  {
    OccurrencesOfOne(0);
    OccurrencesOfOne(1);
    OccurrencesConcat([0], [1]);
    assert [0] + [1] == [0, 1];
  }

  lemma TwoOfThree(wiring: seq<int>, lent: seq<int>, card: seq<int>, modId: seq<nat>)
    requires wiring == [0, 1, 2] && lent == [0, 0, -1] && card == [0, 1] && modId == [0, 0]
    ensures Wired(wiring, wiring) && Owned(wiring, lent, card, modId)
  {
    assert Serves(wiring, card, 0, 0) && Serves(wiring, card, 1, 1);
  }

  /** One UE with two component carriers and a third RU free: a round reads that RU twice. */
  lemma TwoCarriersDrainTwice(wiring: seq<int>, lent: seq<int>, card: seq<int>, modId: seq<nat>, order: seq<nat>)
    requires wiring == [0, 1, 2] && lent == [0, 0, -1] && card == [0, 1] && modId == [0, 0] && order == [0, 1]
    ensures Wired(wiring, wiring) && Owned(wiring, lent, card, modId) && IsRound(order, 2)
    ensures RoundReads(wiring, lent, card, modId, order, 2) == 2
  {
    TwoOfThree(wiring, lent, card, modId);
    TwoInARound();
    EveryRadioPerRound(wiring, wiring, lent, card, modId, order, 2, 2);
  }

  /** The softmodem from its configuration through any frequency changes to a round of reads, each carrier
      reading once in any order. The configuration is accepted exactly when its radio units exist, differ and
      suffice; the reads actually made then visit an RU lent to a carrier once, one without a cell never, and
      a free one once per component carrier. */
  method Session(rus: nat, ruOf: seq<int>, ues: nat, ccs: nat, changes: seq<Change>, order: seq<nat>, ts: seq<seq<int>>)
    returns (ok: bool, radios: Radios, visited: seq<nat>)
    requires forall i :: 0 <= i < |changes| ==> changes[i].carrier < ues * ccs && |changes[i].cells| == |ruOf|
    requires ues > 0 && ccs > 0 && IsRound(order, ues * ccs)
    requires |ts| == |order| && forall i :: 0 <= i < |ts| ==> |ts[i]| == rus
    ensures ok <==> && (forall c :: 0 <= c < |ruOf| ==> 0 <= ruOf[c] < rus)
                    && (forall c, d :: 0 <= c < d < |ruOf| ==> ruOf[c] != ruOf[d])
                    && ues * ccs <= |ruOf|
    ensures ok ==> radios.Valid() && |radios.usedByCell| == rus
    ensures ok ==> forall r: nat :: r < rus ==>
                     Occurrences(visited, r) == ReadsPerRound(radios.usedByCell, radios.usedByUe, ccs, r)
  {
    visited := [];
    radios := new Radios(rus, ruOf);
    ok := radios.Connect();
    if !ok {
      return;
    }
    ok := radios.Assign(ues, ccs);
    if !ok {
      return;
    }
    radios.Retune(changes);
    visited := radios.Round(order, ts);
    MulMonotone(1, ues, ccs);
    forall r: nat | r < rus
      ensures Occurrences(visited, r) == ReadsPerRound(radios.usedByCell, radios.usedByUe, ccs, r)
    {
      EveryRadioPerRound(radios.usedByCell, ruOf, radios.usedByUe, radios.card, radios.modId, order, ccs, r);
    }
  }
}
