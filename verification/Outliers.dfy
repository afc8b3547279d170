/** Scattering sorted rows over a table so that every `gap`th row is an outlier: the first rows fill the other places
    in order, then the last rows fill the places of the outliers. */
module Outliers {
  datatype Record = Record(time: nat, data: nat)

  predicate IsOutlier(p: nat, gap: nat)
    requires gap >= 2
  {
    p % gap == gap - 1
  }

  /** How many rows come before the outliers. */
  function Regulars(len: nat, gap: nat): (n: nat)
    requires gap >= 1
    ensures n <= len
  {
    if gap == 1 then len / 2
    else
      DivBounds(len, gap);
      len - len / gap
  }

  lemma DivBounds(p: nat, gap: nat)
    requires gap >= 2
    ensures p == (p / gap) * gap + p % gap && 0 <= p % gap < gap && 0 <= p / gap <= p
  {
    var q := p / gap;
    assert p == q * gap + p % gap;
    Grows(q, gap);
  }

  lemma Grows(q: nat, gap: nat)
    requires gap >= 1
    ensures q <= q * gap
  {
  }

  lemma MultipleOf(d: int, gap: nat)
    requires gap >= 1 && 0 - gap < d * gap < gap
    ensures d == 0
  {
    assert d >= 1 ==> d * gap >= gap;
    assert d <= -1 ==> d * gap <= 0 - gap;
  }

  lemma DivUnique(p: nat, q: nat, r: nat, gap: nat)
    requires gap >= 1 && p == q * gap + r && r < gap
    ensures p / gap == q && p % gap == r
  {
    assert (p / gap - q) * gap == r - p % gap;
    MultipleOf(p / gap - q, gap);
  }

  lemma DivStep(p: nat, gap: nat)
    requires gap >= 2
    ensures IsOutlier(p, gap) ==> (p + 1) / gap == p / gap + 1 && (p + 1) % gap == 0
    ensures !IsOutlier(p, gap) ==> (p + 1) / gap == p / gap && (p + 1) % gap == p % gap + 1
  {
    if IsOutlier(p, gap) {
      assert p + 1 == (p / gap + 1) * gap;
      DivUnique(p + 1, p / gap + 1, 0, gap);
    } else {
      DivUnique(p + 1, p / gap, p % gap + 1, gap);
    }
  }

  /** The row that belongs at place `p`. */
  function RowAt(p: nat, len: nat, gap: nat): (k: nat)
    requires gap >= 2
  {
    DivBounds(p, gap);
    if IsOutlier(p, gap) then Regulars(len, gap) + p / gap else p - p / gap
  }

  /** The place of row `k`; with a gap of 1 the rows before the outliers take every second place. */
  function PlaceOf(k: nat, len: nat, gap: nat): nat
    requires gap >= 1
  {
    var n := Regulars(len, gap);
    if k >= n then (k - n) * gap + gap - 1 else if gap == 1 then 2 * k + 1 else k + k / (gap - 1)
  }

  lemma DivMonotone(p: nat, q: nat, gap: nat)
    requires gap >= 1 && p <= q
    ensures p / gap <= q / gap
  {
    var d := p / gap - q / gap;
    assert d * gap <= gap - 1 by {
      assert p == (p / gap) * gap + p % gap && q == (q / gap) * gap + q % gap;
    }
    assert d >= 1 ==> d * gap >= gap;
  }

  /** Later places have no fewer regular places before them. */
  lemma {:induction false} RegularsGrow(p: nat, q: nat, gap: nat)
    requires gap >= 2 && p <= q
    ensures p - p / gap <= q - q / gap
    decreases q
  {
    if p < q {
      RegularsGrow(p, q - 1, gap);
      DivStep(q - 1, gap);
    }
  }

  lemma PlaceOfRegular(k: nat, len: nat, gap: nat)
    requires gap >= 2 && k < Regulars(len, gap)
    ensures var p := PlaceOf(k, len, gap); p < len && !IsOutlier(p, gap) && RowAt(p, len, gap) == k
  {
    var q, r := k / (gap - 1), k % (gap - 1);
    var p := k + q;
    assert p == q * gap + r by {
      assert k == q * (gap - 1) + r;
    }
    DivUnique(p, q, r, gap);
    if p >= len {
      RegularsGrow(len, p, gap);
    }
  }

  /** The places of the last rows, which are those of the outliers. */
  lemma PlaceOfOutlier(k: nat, len: nat, gap: nat)
    requires gap >= 2 && k >= Regulars(len, gap)
    ensures var p := PlaceOf(k, len, gap); (p < len <==> k < len) && IsOutlier(p, gap) && RowAt(p, len, gap) == k
  {
    var j := k - Regulars(len, gap);
    DivUnique(j * gap + gap - 1, j, gap - 1, gap);
    DivBounds(len, gap);
    OutlierFits(j, len, gap);
  }

  lemma OutlierFits(j: nat, len: nat, gap: nat)
    requires gap >= 2
    ensures j * gap + gap - 1 < len <==> j < len / gap
  {
    var d := len / gap - j;
    assert d * gap == len - j * gap - len % gap;
    assert d >= 1 ==> d * gap >= gap;
    assert d <= 0 ==> d * gap <= 0;
  }

  /** Rows and places correspond one to one. */
  lemma RowOfPlace(k: nat, len: nat, gap: nat)
    requires gap >= 2 && k < len
    ensures PlaceOf(k, len, gap) < len && RowAt(PlaceOf(k, len, gap), len, gap) == k
  {
    if k < Regulars(len, gap) {
      PlaceOfRegular(k, len, gap);
    } else {
      PlaceOfOutlier(k, len, gap);
    }
  }

  lemma PlaceOfRow(p: nat, len: nat, gap: nat)
    requires gap >= 2 && p < len
    ensures RowAt(p, len, gap) < len && PlaceOf(RowAt(p, len, gap), len, gap) == p
  {
    DivBounds(p, gap);
    DivStep(p, gap);
    RegularsGrow(p + 1, len, gap);
    DivMonotone(p + 1, len, gap);
    DivBounds(len, gap);
    if !IsOutlier(p, gap) {
      var q, r := p / gap, p % gap;
      var k := p - q;
      assert k == q * (gap - 1) + r;
      DivUnique(k, q, r, gap - 1);
    }
  }

  lemma NextOutlier(k: nat, len: nat, gap: nat)
    requires gap >= 1 && k >= Regulars(len, gap)
    ensures PlaceOf(k + 1, len, gap) == PlaceOf(k, len, gap) + gap
  {
    var j := k - Regulars(len, gap);
    assert (j + 1) * gap == j * gap + gap;
  }

  /** The place behind `p`, without outliers, is that of the next row, unless no such place is left. */
  lemma NextRegular(p: nat, len: nat, gap: nat)
    requires gap >= 2 && p <= len && (p > 0 ==> p - 1 < len && !IsOutlier(p - 1, gap))
    ensures var k := if p == 0 then 0 else RowAt(p - 1, len, gap) + 1;
      var next := if IsOutlier(p, gap) then p + 1 else p;
      && !IsOutlier(next, gap) && RowAt(next, len, gap) == k
      && (next >= len ==> k == Regulars(len, gap))
  {
    DivStep(p, gap);
    if p > 0 {
      DivStep(p - 1, gap);
    }
    if p == len - 1 {
      DivStep(len - 1, gap);
    }
  }

  /** A place before the outliers is that of its row. */
  lemma RegularPlace(p: nat, len: nat, gap: nat)
    requires gap >= 2 && p < len && !IsOutlier(p, gap)
    ensures RowAt(p, len, gap) < Regulars(len, gap) && PlaceOf(RowAt(p, len, gap), len, gap) == p
  {
    var k := RowAt(p, len, gap);
    PlaceOfRow(p, len, gap);
    if k >= Regulars(len, gap) {
      PlaceOfOutlier(k, len, gap);
    }
  }

  /** What comes behind the place of a row before the outliers; `k` is -1 behind the header line. */
  lemma NextPlace(k: int, len: nat, gap: nat)
    requires gap >= 1 && -1 <= k < Regulars(len, gap)
    ensures var idx := if k == -1 then 0 else PlaceOf(k, len, gap) + 1;
      var next := if idx % gap == gap - 1 then idx + 1 else idx;
      if next >= len then k + 1 == Regulars(len, gap) && PlaceOf(k + 1, len, gap) == gap - 1
      else k + 1 < Regulars(len, gap) && PlaceOf(k + 1, len, gap) == next
  {
    if gap >= 2 {
      assert k + 1 == Regulars(len, gap) ==> PlaceOf(k + 1, len, gap) == gap - 1;
      var idx := if k == -1 then 0 else PlaceOf(k, len, gap) + 1;
      var next := if IsOutlier(idx, gap) then idx + 1 else idx;
      if k >= 0 {
        PlaceOfRegular(k, len, gap);
      }
      hide PlaceOf;
      NextRegular(idx, len, gap);
      if next < len {
        RegularPlace(next, len, gap);
      }
    }
  }

  /** The next place to write to, behind that of row `k`; -1 stands for the header line. */
  method Advance(idx: int, switched: bool, len: nat, gap: nat, ghost k: int) returns (next: nat, after: bool)
    requires gap >= 1 && k >= -1 && (if k == -1 then idx == -1 else idx == PlaceOf(k, len, gap))
    requires switched <==> k >= Regulars(len, gap)
    ensures next == PlaceOf(k + 1, len, gap) && (after <==> k + 1 >= Regulars(len, gap))
  {
    if k < Regulars(len, gap) {
      NextPlace(k, len, gap);
    } else if k >= 0 {
      NextOutlier(k, len, gap);
    }
    if switched {
      return idx + gap, true;
    }
    next, after := idx + 1, false;
    if next % gap == gap - 1 {
      next := next + 1;
    }
    if next >= len {
      after := true;
      next := gap - 1;
    }
  }

  /** Of the first `j` rows, row `r` is the last one written to place `p`. */
  ghost predicate IsLast(p: nat, r: nat, j: nat, len: nat, gap: nat)
    requires gap >= 1
  {
    r < j && PlaceOf(r, len, gap) == p && forall k :: r < k < j ==> PlaceOf(k, len, gap) != p
  }

  /** Every place holds the last of the first `j` rows that goes there, or what it held before. */
  ghost predicate IsScattered(rows: seq<Record>, j: nat, gap: nat, before: seq<Record>, data: seq<Record>)
    requires gap >= 1 && j <= |rows|
  {
    && |data| == |before|
    && (forall p, r :: 0 <= p < |data| && 0 <= r < j && IsLast(p, r, j, |data|, gap) ==> data[p] == rows[r])
    && (forall p :: 0 <= p < |data| && (forall k :: 0 <= k < j ==> PlaceOf(k, |data|, gap) != p) ==>
      data[p] == before[p])
  }

  lemma WritesNext(rows: seq<Record>, j: nat, gap: nat, before: seq<Record>, data: seq<Record>)
    requires gap >= 1 && j < |rows| && IsScattered(rows, j, gap, before, data)
    requires PlaceOf(j, |data|, gap) < |data|
    ensures IsScattered(rows, j + 1, gap, before, data[PlaceOf(j, |data|, gap) := rows[j]])
  {
    hide PlaceOf;
    var len, end := |data|, j + 1;
    forall p, r | 0 <= p < len && 0 <= r < end && IsLast(p, r, end, len, gap)
      ensures data[PlaceOf(j, len, gap) := rows[j]][p] == rows[r]
    {
      if r < j {
        assert IsLast(p, r, j, len, gap);
      }
    }
  }

  /** Scatter the rows behind the header; false if a row has no place. */
  method Scatter(rows: seq<Record>, len: nat, gap: nat, data: array<Record>) returns (ok: bool)
    requires gap >= 1 && data.Length == len
    modifies data
    ensures ok <==> |rows| <= Room(len, gap)
    ensures ok ==> IsScattered(rows, |rows|, gap, old(data[..]), data[..])
  {
    hide PlaceOf, IsScattered;
    var idx: nat, switched: bool := Advance(-1, false, len, gap, -1);
    assert IsScattered(rows, 0, gap, old(data[..]), data[..]) by {
      NothingWritten(rows, gap, data[..]);
    }
    for k := 0 to |rows|
      invariant k <= Room(len, gap) && idx == PlaceOf(k, len, gap) && (switched <==> k >= Regulars(len, gap))
      invariant IsScattered(rows, k, gap, old(data[..]), data[..])
    {
      PlacesEnd(k, len, gap);
      if idx >= len {
        return false;
      }
      WritesNext(rows, k, gap, old(data[..]), data[..]);
      ghost var was := data[..];
      data[idx] := rows[k];
      assert data[..] == was[idx := rows[k]];
      idx, switched := Advance(idx, switched, len, gap, k);
    }
    return true;
  }

  lemma NothingWritten(rows: seq<Record>, gap: nat, data: seq<Record>)
    requires gap >= 1
    ensures IsScattered(rows, 0, gap, data, data)
  {
  }

  /** How many rows find a place within the table. */
  function Room(len: nat, gap: nat): nat {
    if gap == 1 then len + len / 2 else len
  }

  lemma PlacesEnd(k: nat, len: nat, gap: nat)
    requires gap >= 1
    ensures PlaceOf(k, len, gap) < len <==> k < Room(len, gap)
  {
    if gap >= 2 {
      if k < Regulars(len, gap) {
        PlaceOfRegular(k, len, gap);
      } else {
        PlaceOfOutlier(k, len, gap);
      }
    }
  }

  /** Every place is that of exactly one row. */
  ghost predicate IsOneToOne(len: nat, gap: nat)
    requires gap >= 1
  {
    forall p :: 0 <= p < len ==> HasOneRow(p, len, gap)
  }

  ghost predicate HasOneRow(p: nat, len: nat, gap: nat)
    requires gap >= 1
  {
    exists k :: 0 <= k < len && IsOnlyRow(p, k, len, gap)
  }

  ghost predicate IsOnlyRow(p: nat, k: nat, len: nat, gap: nat)
    requires gap >= 1
  {
    PlaceOf(k, len, gap) == p && forall i :: 0 <= i < len && PlaceOf(i, len, gap) == p ==> i == k
  }

  /** As many rows as places fill them one to one, except with a gap of 1 and more than two places. */
  lemma OneToOneExactly(len: nat, gap: nat)
    requires gap >= 1
    ensures IsOneToOne(len, gap) <==> gap >= 2 || len <= 2
  {
    if gap >= 2 {
      forall p | 0 <= p < len ensures HasOneRow(p, len, gap) {
        PlaceOfRow(p, len, gap);
        RowIsOnly(RowAt(p, len, gap), len, gap);
      }
    } else if len <= 2 {
      assert len >= 1 ==> IsOnlyRow(0, len / 2, len, 1);
      assert len == 2 ==> IsOnlyRow(1, 0, len, 1);
    } else {
      assert PlaceOf(0, len, 1) == PlaceOf(len / 2 + 1, len, 1) == 1;
      assert !HasOneRow(1, len, 1);
    }
  }

  lemma RowIsOnly(k: nat, len: nat, gap: nat)
    requires gap >= 2 && k < len
    ensures IsOnlyRow(PlaceOf(k, len, gap), k, len, gap)
  {
    hide PlaceOf, RowAt;
    RowOfPlace(k, len, gap);
    forall i | 0 <= i < len && PlaceOf(i, len, gap) == PlaceOf(k, len, gap) ensures i == k {
      RowOfPlace(i, len, gap);
    }
  }

  // ---------- what that means for sorted rows ----------

  ghost predicate IsSorted(rows: seq<Record>) {
    forall i, j :: 0 <= i < j < |rows| ==> rows[i].time <= rows[j].time
  }

  /** With sorted rows, the other places hold the smallest rows in order and the places of the outliers the largest,
      again in order; and every row is somewhere. */
  lemma SortedScatter(rows: seq<Record>, gap: nat, before: seq<Record>, data: seq<Record>)
    requires gap >= 2 && |data| == |rows| && IsSorted(rows) && IsScattered(rows, |rows|, gap, before, data)
    ensures forall p, q :: 0 <= p < q < |data| && IsOutlier(p, gap) == IsOutlier(q, gap) ==>
      data[p].time <= data[q].time
    ensures forall p, q :: 0 <= p < |data| && 0 <= q < |data| && !IsOutlier(p, gap) && IsOutlier(q, gap) ==>
      data[p].time <= data[q].time
    ensures forall k :: 0 <= k < |rows| ==> PlaceOf(k, |rows|, gap) < |data| && data[PlaceOf(k, |rows|, gap)] == rows[k]
  {
    hide IsScattered, RowAt, PlaceOf, IsSorted, IsOutlier;
    var len := |rows|;
    forall p, q | 0 <= p < len && 0 <= q < len && (IsOutlier(p, gap) == IsOutlier(q, gap) ==> p < q)
      && (IsOutlier(p, gap) ==> IsOutlier(q, gap))
      ensures data[p].time <= data[q].time
    {
      PlacesInOrder(rows, gap, before, data, p, q);
    }
    forall k | 0 <= k < len ensures PlaceOf(k, len, gap) < len && data[PlaceOf(k, len, gap)] == rows[k] {
      RowOfPlace(k, len, gap);
      PlaceHolds(rows, gap, before, data, PlaceOf(k, len, gap));
    }
  }

  lemma PlacesInOrder(rows: seq<Record>, gap: nat, before: seq<Record>, data: seq<Record>, p: nat, q: nat)
    requires gap >= 2 && |data| == |rows| && IsSorted(rows) && IsScattered(rows, |rows|, gap, before, data)
    requires p < |rows| && q < |rows| && (IsOutlier(p, gap) ==> IsOutlier(q, gap))
    requires IsOutlier(p, gap) == IsOutlier(q, gap) ==> p < q
    ensures data[p].time <= data[q].time
  {
    hide IsScattered, RowAt, IsOutlier;
    PlaceHolds(rows, gap, before, data, p);
    PlaceHolds(rows, gap, before, data, q);
    RowsInOrder(p, q, |rows|, gap);
  }

  lemma PlaceHolds(rows: seq<Record>, gap: nat, before: seq<Record>, data: seq<Record>, p: nat)
    requires gap >= 2 && |data| == |rows| && IsScattered(rows, |rows|, gap, before, data) && p < |rows|
    ensures RowAt(p, |rows|, gap) < |rows| && data[p] == rows[RowAt(p, |rows|, gap)]
  {
    hide PlaceOf, RowAt;
    PlaceOfRow(p, |rows|, gap);
    RowIsOnly(RowAt(p, |rows|, gap), |rows|, gap);
    assert IsLast(p, RowAt(p, |rows|, gap), |rows|, |rows|, gap);
  }

  lemma RowsInOrder(p: nat, q: nat, len: nat, gap: nat)
    requires gap >= 2 && p < len && q < len && (IsOutlier(p, gap) ==> IsOutlier(q, gap))
    requires IsOutlier(p, gap) == IsOutlier(q, gap) ==> p < q
    ensures RowAt(p, len, gap) < RowAt(q, len, gap)
  {
    hide IsOutlier, RowAt;
    if IsOutlier(p, gap) {
      OutliersInOrder(p, q, len, gap);
    } else if IsOutlier(q, gap) {
      RegularFirst(p, q, len, gap);
    } else {
      RegularsInOrder(p, q, len, gap);
    }
  }

  lemma OutliersInOrder(p: nat, q: nat, len: nat, gap: nat)
    requires gap >= 2 && IsOutlier(p, gap) && IsOutlier(q, gap) && p < q < len
    ensures RowAt(p, len, gap) < RowAt(q, len, gap)
  {
    DivStep(p, gap);
    DivMonotone(p + 1, q, gap);
  }

  lemma RegularFirst(p: nat, q: nat, len: nat, gap: nat)
    requires gap >= 2 && !IsOutlier(p, gap) && IsOutlier(q, gap) && p < len && q < len
    ensures RowAt(p, len, gap) < RowAt(q, len, gap)
  {
    RegularPlace(p, len, gap);
    AtLeastRegulars(q, len, gap);
    hide RowAt, Regulars, IsOutlier;
  }

  lemma AtLeastRegulars(q: nat, len: nat, gap: nat)
    requires gap >= 2 && IsOutlier(q, gap)
    ensures RowAt(q, len, gap) >= Regulars(len, gap)
  {
    DivBounds(q, gap);
  }

  lemma RegularsInOrder(p: nat, q: nat, len: nat, gap: nat)
    requires gap >= 2 && !IsOutlier(p, gap) && !IsOutlier(q, gap) && p < q < len
    ensures RowAt(p, len, gap) < RowAt(q, len, gap)
  {
    DivStep(p, gap);
    RegularsGrow(p + 1, q, gap);
  }
}
