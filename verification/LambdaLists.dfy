/** Lambdas over a column of lists: the elements of all lists are gathered into batches of a fixed size, the lambda
    runs on one batch at a time, and the lists of the result are cut out again with state carried across batches. */
module LambdaLists {
  import opened Options

  datatype Value<V> = NULL | BOOLEAN(b: bool) | BIGINT(n: int) | ANY(v: V)

  datatype ListEntry = ListEntry(offset: nat, length: nat)

  /** An argument next to the list: one value for all rows, or one per row. */
  datatype Column<V> = ConstantVector(value: Value<V>) | FlatVector(values: seq<Value<V>>) {
    predicate Covers(rows: nat) {
      FlatVector? ==> |values| == rows
    }

    function At(r: nat): Value<V>
      requires FlatVector? ==> r < |values|
    {
      if ConstantVector? then value else values[r]
    }
  }

  /** A list column: each row selects an entry, and an entry is a part of the child vector or NULL. */
  datatype Lists<V> = Lists(sel: seq<nat>, entries: seq<ListEntry>, validity: seq<bool>, child: seq<Value<V>>) {
    predicate Valid() {
      && |validity| == |entries|
      && (forall r :: 0 <= r < |sel| ==> sel[r] < |entries|)
      && (forall e :: 0 <= e < |entries| && validity[e] ==> entries[e].offset + entries[e].length <= |child|)
    }

    predicate IsNull(r: nat)
      requires Valid() && r < |sel|
    {
      !validity[sel[r]]
    }

    function Length(r: nat): nat
      requires Valid() && r < |sel|
    {
      if IsNull(r) then 0 else entries[sel[r]].length
    }

    function Element(r: nat, j: nat): Value<V>
      requires Valid() && r < |sel| && j < Length(r)
    {
      child[entries[sel[r]].offset + j]
    }
  }

  function Inputs<V>(hasIndex: bool, j: nat, x: Value<V>, captures: seq<Value<V>>): seq<Value<V>> {
    (if hasIndex then [BIGINT(j + 1)] else []) + [x] + captures
  }

  datatype Args<!V> =
    Args(lists: Lists<V>, columns: seq<Column<V>>, hasIndex: bool, fn: seq<Value<V>> -> Value<V>)
  {
    predicate Valid() {
      lists.Valid() && forall c :: 0 <= c < |columns| ==> columns[c].Covers(|lists.sel|)
    }

    function Rows(): nat {
      |lists.sel|
    }

    function Captures(r: nat): seq<Value<V>>
      requires Valid() && r < Rows()
    {
      seq(|columns|, c requires 0 <= c < |columns| => columns[c].At(r))
    }

    /** The lambda on element `j` of row `r`. */
    function Answer(r: nat, j: nat): Value<V>
      requires Valid() && r < Rows() && j < lists.Length(r)
    {
      fn(Inputs(hasIndex, j, lists.Element(r, j), Captures(r)))
    }

    // ---------- row by row ----------

    function Transformed(r: nat): (ys: seq<Value<V>>)
      requires Valid() && r < Rows()
      ensures |ys| == lists.Length(r)
    {
      seq(lists.Length(r), j requires 0 <= j < lists.Length(r) => Answer(r, j))
    }

    /** What is kept of the first `n` elements of row `r`. */
    function Filtered(r: nat, n: nat): (ys: seq<Value<V>>)
      requires Valid() && r < Rows() && n <= lists.Length(r)
      ensures |ys| <= n
    {
      if n == 0 then []
      else Filtered(r, n - 1) + (if Answer(r, n - 1) == BOOLEAN(true) then [lists.Element(r, n - 1)] else [])
    }
  }

  datatype Functor = ListTransform | ListFilter

  /** The list that row `r` should give. */
  function Expected<V>(functor: Functor, a: Args<V>, r: nat): seq<Value<V>>
    requires a.Valid() && r < a.Rows()
  {
    match functor
    case ListTransform => a.Transformed(r)
    case ListFilter => a.Filtered(r, a.lists.Length(r))
  }

  /** The places of row `r` before `n` whose answer is true, in order. */
  ghost predicate AreKept<V>(a: Args<V>, r: nat, n: nat, places: seq<nat>)
    requires a.Valid() && r < a.Rows() && n <= a.lists.Length(r)
  {
    && (forall i, k :: 0 <= i < k < |places| ==> places[i] < places[k])
    && forall j: nat :: j in places <==> j < n && a.Answer(r, j) == BOOLEAN(true)
  }

  /** Filtering keeps just the elements whose answer is true, each once and in order. */
  lemma {:induction false} FilteredExactly<V>(a: Args<V>, r: nat, n: nat) returns (places: seq<nat>)
    requires a.Valid() && r < a.Rows() && n <= a.lists.Length(r)
    ensures AreKept(a, r, n, places) && |places| == |a.Filtered(r, n)|
    ensures forall k :: 0 <= k < |places| ==>
      places[k] < a.lists.Length(r) && a.Filtered(r, n)[k] == a.lists.Element(r, places[k])
    decreases n
  {
    hide Args.Answer, Lists.Element;
    places := [];
    if n > 0 {
      places := FilteredExactly(a, r, n - 1);
      forall i | 0 <= i < |places| ensures places[i] < n - 1 {
        assert places[i] in places;
      }
      var before := places;
      if a.Answer(r, n - 1) == BOOLEAN(true) {
        places := before + [n - 1];
        assert a.Filtered(r, n) == a.Filtered(r, n - 1) + [a.lists.Element(r, n - 1)];
      } else {
        assert a.Filtered(r, n) == a.Filtered(r, n - 1);
      }
      forall j: nat ensures j in places <==> j < n && a.Answer(r, j) == BOOLEAN(true) {
        assert j in places <==> j in before || (j == n - 1 && a.Answer(r, j) == BOOLEAN(true));
      }
    }
  }

  /** What a lambda is given at `k`, seen by one that gives it back: the place from one on, if it asks for it; then the
      element; then what it captures. */
  lemma PicksArgument<V>(a: Args<V>, r: nat, j: nat, k: nat)
    requires a.Valid() && r < a.Rows() && j < a.lists.Length(r)
    requires forall xs: seq<Value<V>> :: |xs| > k ==> a.fn(xs) == xs[k]
    requires k < (if a.hasIndex then 2 else 1) + |a.columns|
    ensures var element := if a.hasIndex then 1 else 0;
      a.Transformed(r)[j] == if k < element then BIGINT(j + 1)
                             else if k == element then a.lists.Element(r, j)
                             else a.columns[k - element - 1].At(r)
  {
    hide Lists.Element, Lists.Length, Column.At;
    var element := if a.hasIndex then 1 else 0;
    var front := if a.hasIndex then [BIGINT(j + 1)] else [];
    var xs := Inputs(a.hasIndex, j, a.lists.Element(r, j), a.Captures(r));
    assert xs == front + ([a.lists.Element(r, j)] + a.Captures(r));
  }

  /** All lists before row `r`, one behind the other. */
  function Before<V>(functor: Functor, a: Args<V>, r: nat): seq<Value<V>>
    requires a.Valid() && r <= a.Rows()
  {
    if r == 0 then [] else Before(functor, a, r - 1) + Expected(functor, a, r - 1)
  }

  /** How many elements the rows before `r` have. */
  function Start<V>(a: Args<V>, r: nat): nat
    requires a.Valid() && r <= a.Rows()
  {
    if r == 0 then 0 else Start(a, r - 1) + a.lists.Length(r - 1)
  }

  lemma StartBehindNull<V>(a: Args<V>, r: nat)
    requires a.Valid() && r < a.Rows() && a.lists.IsNull(r)
    ensures Start(a, r + 1) == Start(a, r)
  {
  }

  lemma {:induction false} StartGrows<V>(a: Args<V>, r: nat, s: nat)
    requires a.Valid() && r < s <= a.Rows()
    ensures Start(a, r) + a.lists.Length(r) <= Start(a, s)
    decreases s
  {
    if r + 1 < s {
      StartGrows(a, r, s - 1);
    }
  }

  /** The place of an element among all elements tells its row and its place in the row. */
  lemma OnePlace<V>(a: Args<V>, r: nat, j: nat, s: nat, k: nat)
    requires a.Valid() && r < a.Rows() && j < a.lists.Length(r) && s < a.Rows() && k < a.lists.Length(s)
    requires Start(a, r) + j == Start(a, s) + k
    ensures r == s && j == k
  {
    if r < s {
      StartGrows(a, r, s);
    } else if s < r {
      StartGrows(a, s, r);
    }
  }

  // ---------- the result ----------

  class ResultVector<V> {
    const entries: array<ListEntry>
    const validity: array<bool>
    var child: seq<Value<V>>

    constructor (rows: nat)
      ensures child == [] && entries.Length == rows && validity.Length == rows
      ensures forall r :: 0 <= r < rows ==> validity[r]
      ensures fresh(entries) && fresh(validity)
    {
      child := [];
      entries := new ListEntry[rows](_ => ListEntry(0, 0));
      validity := new bool[rows](_ => true);
    }

    method Append(values: seq<Value<V>>)
      modifies `child
      ensures child == old(child) + values
    {
      child := child + values;
    }

    /** The list of row `r`, as a reader of the result sees it. */
    function Row(r: nat): Option<seq<Value<V>>>
      requires r < entries.Length == validity.Length
      requires validity[r] ==> entries[r].offset + entries[r].length <= |child|
      reads this, entries, validity
    {
      if validity[r] then Some(child[entries[r].offset..entries[r].offset + entries[r].length]) else None
    }
  }

  // ---------- one batch ----------

  /** Elements, as row and place in the row, that lie at `from`, `from + 1` and so on among all elements. */
  ghost predicate Consecutive<V>(a: Args<V>, from: nat, batch: seq<(nat, nat)>)
    requires a.Valid()
  {
    forall k :: 0 <= k < |batch| ==>
      batch[k].0 < a.Rows() && batch[k].1 < a.lists.Length(batch[k].0)
      && Start(a, batch[k].0) + batch[k].1 == from + k
  }

  class LambdaExecuteInfo<!V> {
    const args: Args<V>
    const childSel: array<nat>
    const rowSel: array<nat>
    const indexVector: array<Value<V>>
    var inputChunk: seq<seq<Value<V>>>
    var lambdaChunk: seq<Value<V>>

    constructor (a: Args<V>, vectorSize: nat)
      ensures args == a && childSel.Length == rowSel.Length == indexVector.Length == vectorSize
      ensures fresh(childSel) && fresh(rowSel) && fresh(indexVector) && childSel != rowSel
    {
      args := a;
      childSel := new nat[vectorSize](_ => 0);
      rowSel := new nat[vectorSize](_ => 0);
      indexVector := new Value[vectorSize](_ => NULL);
      inputChunk, lambdaChunk := [], [];
      new;
    }

    /** The selection vectors and the index vector hold the elements of `batch`. */
    ghost predicate Gathered(batch: seq<(nat, nat)>)
      requires args.Valid()
      reads childSel, rowSel, indexVector
    {
      && |batch| <= childSel.Length == rowSel.Length == indexVector.Length
      && forall k :: 0 <= k < |batch| ==>
        var (r, j) := batch[k];
        && r < args.Rows() && j < args.lists.Length(r)
        && childSel[k] == args.lists.entries[args.lists.sel[r]].offset + j
        && rowSel[k] == r
        && (args.hasIndex ==> indexVector[k] == BIGINT(j + 1))
    }

    /** Add element `childIdx` of row `row` to the batch. */
    method Gather(elemCnt: nat, row: nat, entry: ListEntry, childIdx: nat, ghost batch: seq<(nat, nat)>)
      requires args.Valid() && Gathered(batch) && |batch| == elemCnt < childSel.Length
      requires row < args.Rows() && childIdx < args.lists.Length(row)
      requires entry == args.lists.entries[args.lists.sel[row]]
      requires childSel != rowSel
      modifies childSel, rowSel, indexVector
      ensures Gathered(batch + [(row, childIdx)])
    {
      childSel[elemCnt] := entry.offset + childIdx;
      rowSel[elemCnt] := row;
      if args.hasIndex {
        indexVector[elemCnt] := BIGINT(childIdx + 1);
      }
      ghost var after := batch + [(row, childIdx)];
      assert forall k :: 0 <= k < |batch| ==> after[k] == batch[k];
    }

    function SourceListIdx(): nat {
      if args.hasIndex then 1 else 0
    }

    method SliceColumn(c: nat, elemCnt: nat) returns (slice: seq<Value<V>>)
      requires args.Valid() && c < |args.columns| && elemCnt <= rowSel.Length
      requires forall k :: 0 <= k < elemCnt ==> rowSel[k] < args.Rows()
      ensures |slice| == elemCnt
      ensures args.columns[c].Covers(args.Rows())
      ensures forall k :: 0 <= k < elemCnt ==> slice[k] == args.columns[c].At(rowSel[k])
    {
      var column := args.columns[c];
      match column
      case ConstantVector(value) =>
        slice := seq(elemCnt, _ => value);
      case FlatVector(values) =>
        slice := [];
        for k := 0 to elemCnt
          invariant |slice| == k && forall h :: 0 <= h < k ==> slice[h] == values[rowSel[h]]
        {
          slice := slice + [values[rowSel[k]]];
        }
    }

    /** Run the lambda on the gathered elements. */
    method ExecuteExpression(elemCnt: nat, ghost batch: seq<(nat, nat)>)
      requires args.Valid() && Gathered(batch) && |batch| == elemCnt
      modifies `inputChunk, `lambdaChunk
      ensures |lambdaChunk| == elemCnt
      ensures forall k :: 0 <= k < elemCnt ==> lambdaChunk[k] == args.Answer(batch[k].0, batch[k].1)
      ensures SourceListIdx() < |inputChunk| && |inputChunk[SourceListIdx()]| == elemCnt
      ensures forall k :: 0 <= k < elemCnt ==>
        inputChunk[SourceListIdx()][k] == args.lists.Element(batch[k].0, batch[k].1)
    {
      var slice: seq<Value<V>> := [];
      for k := 0 to elemCnt
        invariant |slice| == k
        invariant forall h :: 0 <= h < k ==> slice[h] == args.lists.Element(batch[h].0, batch[h].1)
      {
        assert childSel[k] == args.lists.entries[args.lists.sel[batch[k].0]].offset + batch[k].1;
        slice := slice + [args.lists.child[childSel[k]]];
      }
      var first := (if args.hasIndex then [indexVector[..elemCnt]] else []) + [slice];
      var chunk := first;
      for c := 0 to |args.columns|
        invariant |chunk| == |first| + c && chunk[..|first|] == first
        invariant forall h :: 0 <= h < |chunk| ==> |chunk[h]| == elemCnt
        invariant forall h, k :: 0 <= h < c && 0 <= k < elemCnt ==>
          chunk[|first| + h][k] == args.columns[h].At(rowSel[k])
      {
        var column := SliceColumn(c, elemCnt);
        chunk := chunk + [column];
      }
      inputChunk := chunk;
      assert inputChunk[SourceListIdx()] == slice by {
        assert chunk[..|first|][|first| - 1] == slice;
      }
      lambdaChunk := [];
      for k := 0 to elemCnt
        invariant |lambdaChunk| == k && inputChunk == chunk
        invariant forall h :: 0 <= h < k ==> lambdaChunk[h] == args.Answer(batch[h].0, batch[h].1)
      {
        var inputs := seq(|chunk|, c requires 0 <= c < |chunk| => chunk[c][k]);
        InputsOfBatch(batch, k, chunk, first, inputs);
        lambdaChunk := lambdaChunk + [args.fn(inputs)];
      }
    }

    lemma InputsOfBatch(batch: seq<(nat, nat)>, k: nat, chunk: seq<seq<Value<V>>>, first: seq<seq<Value<V>>>,
                        inputs: seq<Value<V>>)
      requires args.Valid() && Gathered(batch) && k < |batch|
      requires |chunk| == |first| + |args.columns| && chunk[..|first|] == first && |inputs| == |chunk|
      requires forall h :: 0 <= h < |chunk| ==> |chunk[h]| == |batch| && inputs[h] == chunk[h][k]
      requires |first| == SourceListIdx() + 1 && (args.hasIndex ==> first[0] == indexVector[..|batch|])
      requires first[|first| - 1][k] == args.lists.Element(batch[k].0, batch[k].1)
      requires forall h :: 0 <= h < |args.columns| ==> chunk[|first| + h][k] == args.columns[h].At(rowSel[k])
      ensures inputs == Inputs(args.hasIndex, batch[k].1, args.lists.Element(batch[k].0, batch[k].1),
                               args.Captures(batch[k].0))
    {
      forall h | 0 <= h < |first| ensures chunk[h] == first[h] {
        assert chunk[..|first|][h] == first[h];
      }
    }
  }

  // ---------- list_filter ----------

  /** How far the rows have been cut out of the kept elements. */
  datatype Cursor = Cursor(rowIdx: nat, srcLength: nat, length: nat, offset: nat)

  /** The cursor stands in a row whose length is known, or right before a row. */
  ghost predicate Inside<V>(a: Args<V>, known: nat, c: Cursor)
    requires a.Valid()
  {
    && c.rowIdx <= known <= a.Rows()
    && (c.srcLength == 0 || (c.rowIdx < known && c.srcLength < a.lists.Length(c.rowIdx)))
  }

  /** What is kept of the current row. */
  ghost function KeptHere<V>(a: Args<V>, known: nat, c: Cursor): seq<Value<V>>
    requires a.Valid() && Inside(a, known, c)
  {
    if c.srcLength == 0 then [] else a.Filtered(c.rowIdx, c.srcLength)
  }

  /** Everything kept so far. */
  ghost function Kept<V>(a: Args<V>, known: nat, c: Cursor): seq<Value<V>>
    requires a.Valid() && Inside(a, known, c)
  {
    Before(ListFilter, a, c.rowIdx) + KeptHere(a, known, c)
  }

  ghost predicate EntryOf<V>(a: Args<V>, r: nat, e: ListEntry)
    requires a.Valid() && r < a.Rows()
  {
    e == ListEntry(|Before(ListFilter, a, r)|, |Expected(ListFilter, a, r)|)
  }

  /** The first `m` of all elements have been dealt with, and the rows they complete have their entries. */
  ghost predicate CutAt<V>(a: Args<V>, known: nat, m: nat, c: Cursor, entries: seq<ListEntry>)
    requires a.Valid()
  {
    && Inside(a, known, c) && |entries| == a.Rows()
    && m == Start(a, c.rowIdx) + c.srcLength
    && c.offset == |Before(ListFilter, a, c.rowIdx)|
    && c.length == |KeptHere(a, known, c)|
    && forall r :: 0 <= r < c.rowIdx ==> EntryOf(a, r, entries[r])
  }

  lemma CutIsInside<V>(a: Args<V>, known: nat, m: nat, c: Cursor, entries: seq<ListEntry>)
    requires a.Valid() && CutAt(a, known, m, c, entries)
    ensures Inside(a, known, c) && |entries| == a.Rows()
  {
  }

  lemma MoreKnown<V>(a: Args<V>, known: nat, m: nat, c: Cursor, entries: seq<ListEntry>)
    requires a.Valid() && CutAt(a, known, m, c, entries) && known < a.Rows()
    ensures CutAt(a, known + 1, m, c, entries) && Kept(a, known + 1, c) == Kept(a, known, c)
  {
  }

  lemma SkipsEmptyList<V>(a: Args<V>, known: nat, m: nat, c: Cursor, entries: seq<ListEntry>)
    requires a.Valid() && CutAt(a, known, m, c, entries) && c.rowIdx < known && a.lists.Length(c.rowIdx) == 0
    ensures var d := c.(rowIdx := c.rowIdx + 1);
      CutAt(a, known, m, d, entries[c.rowIdx := ListEntry(c.offset, 0)]) && Kept(a, known, d) == Kept(a, known, c)
  {
    assert Before(ListFilter, a, c.rowIdx + 1) == Before(ListFilter, a, c.rowIdx);
  }

  /** The cursor behind one more element of its row, and the entries with the row's entry if that completes it. */
  function CountedIn(c: Cursor, entries: seq<ListEntry>, rowLength: nat, kept: bool): (Cursor, seq<ListEntry>)
    requires c.rowIdx < |entries|
  {
    var length := if kept then c.length + 1 else c.length;
    if rowLength == c.srcLength + 1
    then (Cursor(c.rowIdx + 1, 0, 0, c.offset + length), entries[c.rowIdx := ListEntry(c.offset, length)])
    else (c.(length := length, srcLength := c.srcLength + 1), entries)
  }

  lemma CountsLast<V>(a: Args<V>, known: nat, m: nat, c: Cursor, entries: seq<ListEntry>)
    requires a.Valid() && CutAt(a, known, m, c, entries) && c.rowIdx < known
    requires c.srcLength + 1 == a.lists.Length(c.rowIdx)
    ensures var kept := a.Answer(c.rowIdx, c.srcLength) == BOOLEAN(true);
      var (d, after) := CountedIn(c, entries, a.lists.Length(c.rowIdx), kept);
      && CutAt(a, known, m + 1, d, after)
      && Kept(a, known, d) ==
         Kept(a, known, c) + (if kept then [a.lists.Element(c.rowIdx, c.srcLength)] else [])
  {
    hide Lists.Element, Args.Answer;
    assert a.Filtered(c.rowIdx, c.srcLength) == KeptHere(a, known, c);
    assert Before(ListFilter, a, c.rowIdx + 1) ==
           Before(ListFilter, a, c.rowIdx) + a.Filtered(c.rowIdx, c.srcLength + 1);
  }

  lemma CountsInner<V>(a: Args<V>, known: nat, m: nat, c: Cursor, entries: seq<ListEntry>)
    requires a.Valid() && CutAt(a, known, m, c, entries) && c.rowIdx < known
    requires c.srcLength + 1 < a.lists.Length(c.rowIdx)
    ensures var kept := a.Answer(c.rowIdx, c.srcLength) == BOOLEAN(true);
      var (d, after) := CountedIn(c, entries, a.lists.Length(c.rowIdx), kept);
      && CutAt(a, known, m + 1, d, after)
      && Kept(a, known, d) ==
         Kept(a, known, c) + (if kept then [a.lists.Element(c.rowIdx, c.srcLength)] else [])
  {
    hide Lists.Element, Args.Answer;
    assert a.Filtered(c.rowIdx, c.srcLength) == KeptHere(a, known, c);
  }

  lemma CountsElement<V>(a: Args<V>, known: nat, m: nat, c: Cursor, entries: seq<ListEntry>)
    requires a.Valid() && CutAt(a, known, m, c, entries) && c.rowIdx < known && c.srcLength < a.lists.Length(c.rowIdx)
    ensures var kept := a.Answer(c.rowIdx, c.srcLength) == BOOLEAN(true);
      var (d, after) := CountedIn(c, entries, a.lists.Length(c.rowIdx), kept);
      && CutAt(a, known, m + 1, d, after)
      && Kept(a, known, d) ==
         Kept(a, known, c) + (if kept then [a.lists.Element(c.rowIdx, c.srcLength)] else [])
  {
    var isLast := c.srcLength + 1 == a.lists.Length(c.rowIdx);
    hide CutAt, Kept, CountedIn;
    if isLast {
      CountsLast(a, known, m, c, entries);
    } else {
      CountsInner(a, known, m, c, entries);
    }
  }

  class ListFilterInfo {
    var entryLengths: seq<nat>
    var length: nat
    var offset: nat
    var rowIdx: nat
    var srcLength: nat

    constructor ()
      ensures entryLengths == [] && At() == Cursor(0, 0, 0, 0)
    {
      entryLengths, length, offset, rowIdx, srcLength := [], 0, 0, 0, 0;
    }

    function At(): Cursor
      reads this
    {
      Cursor(rowIdx, srcLength, length, offset)
    }

    /** The lengths of the first rows are known. */
    ghost predicate Known<V>(a: Args<V>)
      requires a.Valid()
      reads this
    {
      |entryLengths| <= a.Rows() && forall r :: 0 <= r < |entryLengths| ==> entryLengths[r] == a.lists.Length(r)
    }

    method SkipEmptyLists<V>(ghost a: Args<V>, ghost m: nat, entries: array<ListEntry>)
      requires a.Valid() && Known(a) && CutAt(a, |entryLengths|, m, At(), entries[..])
      modifies `rowIdx, entries
      ensures CutAt(a, |entryLengths|, m, At(), entries[..])
      ensures Kept(a, |entryLengths|, At()) == old(Kept(a, |entryLengths|, At()))
      ensures rowIdx < |entryLengths| ==> entryLengths[rowIdx] != 0
    {
      hide CutAt, Kept;
      CutIsInside(a, |entryLengths|, m, At(), entries[..]);
      while rowIdx < |entryLengths| && entryLengths[rowIdx] == 0
        invariant CutAt(a, |entryLengths|, m, At(), entries[..]) && Inside(a, |entryLengths|, At())
        invariant Kept(a, |entryLengths|, At()) == old(Kept(a, |entryLengths|, At()))
        decreases |entryLengths| - rowIdx
      {
        SkipsEmptyList(a, |entryLengths|, m, At(), entries[..]);
        ghost var after := entries[..][rowIdx := ListEntry(offset, 0)];
        entries[rowIdx] := ListEntry(offset, 0);
        assert entries[..] == after;
        rowIdx := rowIdx + 1;
        CutIsInside(a, |entryLengths|, m, At(), entries[..]);
      }
    }

    /** Find the row of element `j` of row `r`, and count that element in. */
    method NextElement<V>(ghost a: Args<V>, ghost m: nat, ghost r: nat, ghost j: nat, entries: array<ListEntry>,
                          kept: bool)
      requires a.Valid() && Known(a) && CutAt(a, |entryLengths|, m, At(), entries[..])
      requires r < a.Rows() && j < a.lists.Length(r) && Start(a, r) + j == m < Start(a, |entryLengths|)
      requires kept <==> a.Answer(r, j) == BOOLEAN(true)
      modifies `length, `srcLength, `offset, `rowIdx, entries
      ensures CutAt(a, |entryLengths|, m + 1, At(), entries[..]) && Inside(a, |entryLengths|, At())
      ensures Kept(a, |entryLengths|, At()) ==
              old(Kept(a, |entryLengths|, At())) + (if kept then [a.lists.Element(r, j)] else [])
    {
      hide CutAt, Kept;
      SkipEmptyLists(a, m, entries);
      PlaceOfNext(a, |entryLengths|, m, At(), entries[..], r, j);
      CountsElement(a, |entryLengths|, m, At(), entries[..]);
      Count(entries, kept);
      CutIsInside(a, |entryLengths|, m + 1, At(), entries[..]);
    }

    /** Count one more element of the current row in. */
    method Count(entries: array<ListEntry>, kept: bool)
      requires rowIdx < |entryLengths| && rowIdx < entries.Length
      modifies `length, `srcLength, `offset, `rowIdx, entries
      ensures (At(), entries[..]) == old(CountedIn(At(), entries[..], entryLengths[rowIdx], kept))
    {
      if kept {
        length := length + 1;
      }
      srcLength := srcLength + 1;
      if entryLengths[rowIdx] == srcLength {
        entries[rowIdx] := ListEntry(offset, length);
        offset := offset + length;
        rowIdx := rowIdx + 1;
        length := 0;
        srcLength := 0;
      }
    }
  }

  /** The answers and elements of one batch. */
  ghost predicate Executed<V>(a: Args<V>, batch: seq<(nat, nat)>, source: seq<Value<V>>, answers: seq<Value<V>>)
    requires a.Valid()
  {
    && |source| == |answers| == |batch|
    && forall k :: 0 <= k < |batch| ==>
      batch[k].0 < a.Rows() && batch[k].1 < a.lists.Length(batch[k].0)
      && answers[k] == a.Answer(batch[k].0, batch[k].1) && source[k] == a.lists.Element(batch[k].0, batch[k].1)
  }

  /** Cut the lists of the result out of one more batch, and append the kept elements. */
  method FilterAppend<V>(result: ResultVector<V>, source: seq<Value<V>>, lambdaValues: seq<Value<V>>,
                         info: ListFilterInfo, ghost a: Args<V>, ghost m: nat, ghost batch: seq<(nat, nat)>)
    requires a.Valid() && info.Known(a) && CutAt(a, |info.entryLengths|, m, info.At(), result.entries[..])
    requires Consecutive(a, m, batch) && m + |batch| <= Start(a, |info.entryLengths|)
    requires Executed(a, batch, source, lambdaValues)
    requires result.child == Kept(a, |info.entryLengths|, info.At())
    modifies info`length, info`srcLength, info`offset, info`rowIdx, result`child, result.entries
    ensures CutAt(a, |info.entryLengths|, m + |batch|, info.At(), result.entries[..])
    ensures result.child == Kept(a, |info.entryLengths|, info.At())
    ensures info.rowIdx < |info.entryLengths| ==> info.entryLengths[info.rowIdx] != 0
  {
    hide CutAt, Kept, Sliced, Start;
    var elemCnt := |lambdaValues|;
    ghost var known := |info.entryLengths|;
    var count := 0;
    var sel := new nat[elemCnt](_ => 0);
    ghost var selected: seq<Value<V>> := [];
    CutIsInside(a, known, m, info.At(), result.entries[..]);
    assert result.child + selected == result.child;
    for i := 0 to elemCnt
      invariant CutAt(a, known, m + i, info.At(), result.entries[..]) && Inside(a, known, info.At())
      invariant Kept(a, known, info.At()) == old(result.child) + selected
      invariant count == |selected| <= i && result.child == old(result.child)
      invariant forall k :: 0 <= k < count ==> sel[k] < elemCnt && source[sel[k]] == selected[k]
    {
      var kept := lambdaValues[i] == BOOLEAN(true);
      info.NextElement(a, m + i, batch[i].0, batch[i].1, result.entries, kept);
      if kept {
        sel[count] := i;
        count := count + 1;
        selected := selected + [source[i]];
      }
    }
    info.SkipEmptyLists(a, m + elemCnt, result.entries);
    var resultLists := Sliced(source, sel, count);
    assert resultLists == selected;
    ghost var c := info.At();
    result.Append(resultLists);
    assert info.At() == c && |info.entryLengths| == known;
  }

  function Sliced<V>(source: seq<V>, sel: array<nat>, count: nat): (ys: seq<V>)
    requires count <= sel.Length && forall k :: 0 <= k < count ==> sel[k] < |source|
    reads sel
    ensures |ys| == count && forall k :: 0 <= k < count ==> ys[k] == source[sel[k]]
  {
    if count == 0 then [] else Sliced(source, sel, count - 1) + [source[sel[count - 1]]]
  }

  /** With empty lists skipped, the cursor stands at the next element. */
  lemma PlaceOfNext<V>(a: Args<V>, known: nat, m: nat, c: Cursor, entries: seq<ListEntry>, r: nat, j: nat)
    requires a.Valid() && CutAt(a, known, m, c, entries)
    requires c.rowIdx < known ==> a.lists.Length(c.rowIdx) != 0
    requires r < a.Rows() && j < a.lists.Length(r) && Start(a, r) + j == m < Start(a, known)
    ensures c.rowIdx == r < known && c.srcLength == j && r < |entries|
  {
    OnePlace(a, c.rowIdx, c.srcLength, r, j);
  }

  // ---------- list_transform ----------

  lemma {:induction false} BeforeLength<V>(a: Args<V>, r: nat)
    requires a.Valid() && r <= a.Rows()
    ensures |Before(ListTransform, a, r)| == Start(a, r)
  {
    hide Lists.Length, Args.Transformed;
    if r > 0 {
      BeforeLength(a, r - 1);
      assert |Expected(ListTransform, a, r - 1)| == a.lists.Length(r - 1);
    }
  }

  /** Where the lists of the rows lie among all of them. */
  lemma {:induction false} BeforeSlice<V>(functor: Functor, a: Args<V>, r: nat, n: nat)
    requires a.Valid() && r < n <= a.Rows()
    ensures var from := |Before(functor, a, r)|;
      var to := from + |Expected(functor, a, r)|;
      to <= |Before(functor, a, n)| && Before(functor, a, n)[from..to] == Expected(functor, a, r)
    decreases n
  {
    hide Expected;
    var from := |Before(functor, a, r)|;
    var to := from + |Expected(functor, a, r)|;
    if r + 1 < n {
      BeforeSlice(functor, a, r, n - 1);
      assert Before(functor, a, n)[from..to] == Before(functor, a, n - 1)[from..to];
    } else {
      assert Before(functor, a, n)[from..to] == Expected(functor, a, r);
    }
  }

  lemma TransformedAt<V>(a: Args<V>, r: nat, j: nat)
    requires a.Valid() && r < a.Rows() && j < a.lists.Length(r)
    ensures var all := Before(ListTransform, a, a.Rows());
      Start(a, r) + j < |all| && all[Start(a, r) + j] == a.Answer(r, j)
  {
    hide Before, Start, Expected, Args.Answer, Lists.Length;
    BeforeSlice(ListTransform, a, r, a.Rows());
    BeforeLength(a, r);
    ExpectedAt(a, r, j);
    SliceAt(Before(ListTransform, a, a.Rows()), Start(a, r), Expected(ListTransform, a, r), j);
  }

  lemma ExpectedAt<V>(a: Args<V>, r: nat, j: nat)
    requires a.Valid() && r < a.Rows() && j < a.lists.Length(r)
    ensures var row := Expected(ListTransform, a, r); |row| == a.lists.Length(r) && row[j] == a.Answer(r, j)
  {
    hide Args.Answer, Lists.Length;
  }

  lemma SliceAt<V>(all: seq<V>, from: nat, row: seq<V>, j: nat)
    requires from + |row| <= |all| && all[from..from + |row|] == row && j < |row|
    ensures all[from + j] == row[j]
  {
    assert all[from..from + |row|][j] == all[from + j];
  }

  // ---------- both ----------

  /** The entries of the first `rows` rows are known, and the first `m` of all elements have been dealt with. */
  ghost predicate Done<V>(functor: Functor, a: Args<V>, rows: nat, m: nat, offset: nat, info: ListFilterInfo,
                          result: ResultVector<V>)
    requires a.Valid()
    reads info, result, result.entries
  {
    && rows <= a.Rows() && m <= Start(a, rows) && result.entries.Length == a.Rows()
    && match functor
       case ListTransform =>
         && offset == Start(a, rows)
         && m <= |Before(ListTransform, a, a.Rows())| && result.child == Before(ListTransform, a, a.Rows())[..m]
         && forall r :: 0 <= r < rows && !a.lists.IsNull(r) ==>
           result.entries[r] == ListEntry(Start(a, r), a.lists.Length(r))
       case ListFilter =>
         && info.Known(a) && |info.entryLengths| == rows
         && CutAt(a, rows, m, info.At(), result.entries[..])
         && result.child == Kept(a, rows, info.At())
  }

  method SetResultEntry<V>(functor: Functor, result: ResultVector<V>, offset: nat, row: nat, info: ListFilterInfo,
                           length: nat, ghost a: Args<V>, ghost m: nat)
    returns (next: nat)
    requires a.Valid() && row < a.Rows() && Done(functor, a, row, m, offset, info, result)
    requires !a.lists.IsNull(row) && length == a.lists.Length(row)
    modifies info`entryLengths, result.entries
    ensures Done(functor, a, row + 1, m, next, info, result)
  {
    hide CutAt, Kept, Before;
    next := offset;
    match functor
    case ListTransform =>
      result.entries[row] := ListEntry(offset, length);
      next := offset + length;
    case ListFilter =>
      MoreKnown(a, row, m, info.At(), result.entries[..]);
      info.entryLengths := info.entryLengths + [length];
  }

  method PushEmptyList<V>(functor: Functor, result: ResultVector<V>, offset: nat, row: nat, info: ListFilterInfo,
                          ghost a: Args<V>, ghost m: nat)
    requires a.Valid() && row < a.Rows() && Done(functor, a, row, m, offset, info, result) && a.lists.IsNull(row)
    modifies info`entryLengths
    ensures Done(functor, a, row + 1, m, offset, info, result)
  {
    hide CutAt, Kept, Before;
    match functor
    case ListTransform =>
    case ListFilter =>
      MoreKnown(a, row, m, info.At(), result.entries[..]);
      info.entryLengths := info.entryLengths + [0];
  }

  method SetInvalid<V>(functor: Functor, result: ResultVector<V>, row: nat, info: ListFilterInfo,
                               ghost a: Args<V>, ghost m: nat, ghost offset: nat)
    requires a.Valid() && row < result.validity.Length && Done(functor, a, row, m, offset, info, result)
    modifies result.validity
    ensures result.validity[..] == old(result.validity[..])[row := false]
    ensures Done(functor, a, row, m, offset, info, result)
  {
    result.validity[row] := false;
  }

  lemma AllTransformed<V>(a: Args<V>, m: nat, batch: seq<(nat, nat)>, source: seq<Value<V>>, answers: seq<Value<V>>)
    requires a.Valid() && Consecutive(a, m, batch) && Executed(a, batch, source, answers)
    requires m <= |Before(ListTransform, a, a.Rows())|
    ensures var all := Before(ListTransform, a, a.Rows());
      m + |batch| <= |all| && all[..m] + answers == all[..m + |batch|]
  {
    hide Before, Start, Args.Answer;
    var all := Before(ListTransform, a, a.Rows());
    forall k | 0 <= k < |batch| ensures m + k < |all| && all[m + k] == answers[k] {
      TransformedAt(a, batch[k].0, batch[k].1);
    }
    if |batch| > 0 {
      TransformedAt(a, batch[|batch| - 1].0, batch[|batch| - 1].1);
    }
  }

  method AppendResult<V>(functor: Functor, result: ResultVector<V>, source: seq<Value<V>>, lambdaValues: seq<Value<V>>,
                         info: ListFilterInfo, ghost a: Args<V>, ghost rows: nat, ghost m: nat, ghost offset: nat,
                         ghost batch: seq<(nat, nat)>)
    requires a.Valid() && Done(functor, a, rows, m, offset, info, result)
    requires Consecutive(a, m, batch) && m + |batch| <= Start(a, rows) && Executed(a, batch, source, lambdaValues)
    modifies info`length, info`srcLength, info`offset, info`rowIdx, result`child, result.entries
    ensures Done(functor, a, rows, m + |batch|, offset, info, result)
    ensures functor == ListFilter && info.rowIdx < rows ==> info.entryLengths[info.rowIdx] != 0
  {
    hide CutAt, Kept, Start, Before;
    match functor
    case ListTransform =>
      AllTransformed(a, m, batch, source, lambdaValues);
      result.Append(lambdaValues);
    case ListFilter =>
      FilterAppend(result, source, lambdaValues, info, a, m, batch);
  }

  /** Run the lambda on the gathered batch and hand its answers on. */
  method RunBatch<V>(functor: Functor, result: ResultVector<V>, elemCnt: nat, info: ListFilterInfo,
                     executeInfo: LambdaExecuteInfo<V>, ghost rows: nat, ghost m: nat, ghost offset: nat,
                     ghost batch: seq<(nat, nat)>)
    requires var a := executeInfo.args;
      && a.Valid() && Done(functor, a, rows, m, offset, info, result)
      && Consecutive(a, m, batch) && m + |batch| <= Start(a, rows)
    requires executeInfo.Gathered(batch) && |batch| == elemCnt
    modifies executeInfo`inputChunk, executeInfo`lambdaChunk
    modifies info`length, info`srcLength, info`offset, info`rowIdx, result`child, result.entries
    ensures Done(functor, executeInfo.args, rows, m + |batch|, offset, info, result)
    ensures functor == ListFilter && info.rowIdx < rows ==> info.entryLengths[info.rowIdx] != 0
  {
    hide Done, Start;
    executeInfo.ExecuteExpression(elemCnt, batch);
    AppendResult(functor, result, executeInfo.inputChunk[executeInfo.SourceListIdx()], executeInfo.lambdaChunk, info,
                 executeInfo.args, rows, m, offset, batch);
  }

  /** Gather the elements of row `row`, running the lambda whenever a batch is full. */
  method GatherRow<V>(functor: Functor, result: ResultVector<V>, row: nat, entry: ListEntry, count: nat,
                      info: ListFilterInfo, executeInfo: LambdaExecuteInfo<V>, ghost m: nat, ghost offset: nat,
                      ghost batch: seq<(nat, nat)>)
    returns (elemCnt: nat, ghost done: nat, ghost pending: seq<(nat, nat)>)
    requires var a := executeInfo.args;
      && a.Valid() && row < a.Rows() && Done(functor, a, row + 1, m, offset, info, result)
      && !a.lists.IsNull(row) && entry == a.lists.entries[a.lists.sel[row]]
      && Consecutive(a, m, batch) && m + |batch| == Start(a, row)
    requires executeInfo.Gathered(batch) && |batch| == count && executeInfo.childSel.Length >= 1
    requires executeInfo.childSel != executeInfo.rowSel
    requires executeInfo.childSel.Length == executeInfo.rowSel.Length == executeInfo.indexVector.Length
    modifies executeInfo`inputChunk, executeInfo`lambdaChunk
    modifies executeInfo.childSel, executeInfo.rowSel, executeInfo.indexVector
    modifies info`length, info`srcLength, info`offset, info`rowIdx, result`child, result.entries
    ensures var a := executeInfo.args;
      && Done(functor, a, row + 1, done, offset, info, result)
      && Consecutive(a, done, pending) && done + |pending| == Start(a, row + 1)
    ensures executeInfo.Gathered(pending) && |pending| == elemCnt
  {
    hide Done;
    ghost var a := executeInfo.args;
    elemCnt, done, pending := count, m, batch;
    for childIdx := 0 to entry.length
      invariant Done(functor, a, row + 1, done, offset, info, result)
      invariant Consecutive(a, done, pending) && done + |pending| == Start(a, row) + childIdx
      invariant executeInfo.Gathered(pending) && |pending| == elemCnt
    {
      if elemCnt == executeInfo.childSel.Length {
        RunBatch(functor, result, elemCnt, info, executeInfo, row + 1, done, offset, pending);
        done, pending := done + |pending|, [];
        elemCnt := 0;
      }
      executeInfo.Gather(elemCnt, row, entry, childIdx, pending);
      pending := pending + [(row, childIdx)];
      elemCnt := elemCnt + 1;
    }
  }

  lemma StartDone<V>(functor: Functor, a: Args<V>, info: ListFilterInfo, result: ResultVector<V>)
    requires a.Valid() && result.entries.Length == a.Rows() && result.child == []
    requires info.entryLengths == [] && info.At() == Cursor(0, 0, 0, 0)
    ensures Done(functor, a, 0, 0, 0, info, result)
  {
  }

  /** Once all elements have been dealt with, the result holds the list of every row. */
  lemma DoneIsExpected<V>(functor: Functor, a: Args<V>, offset: nat, info: ListFilterInfo, result: ResultVector<V>)
    requires a.Valid() && Done(functor, a, a.Rows(), Start(a, a.Rows()), offset, info, result)
    requires functor == ListFilter && info.rowIdx < a.Rows() ==> info.entryLengths[info.rowIdx] != 0
    ensures result.child == Before(functor, a, a.Rows())
    ensures forall r :: 0 <= r < a.Rows() && !a.lists.IsNull(r) ==>
      result.entries[r] == ListEntry(|Before(functor, a, r)|, |Expected(functor, a, r)|)
  {
    match functor
    case ListTransform =>
      BeforeLength(a, a.Rows());
      forall r | 0 <= r < a.Rows() ensures Start(a, r) == |Before(functor, a, r)| {
        BeforeLength(a, r);
      }
    case ListFilter =>
      if info.rowIdx < a.Rows() {
        StartGrows(a, info.rowIdx, a.Rows());
        assert false;
      }
  }

  lemma RowsAreExpected<V>(functor: Functor, a: Args<V>, result: ResultVector<V>)
    requires a.Valid() && result.entries.Length == result.validity.Length == a.Rows()
    requires result.child == Before(functor, a, a.Rows())
    requires forall r :: 0 <= r < a.Rows() && !a.lists.IsNull(r) ==>
      result.validity[r] && result.entries[r] == ListEntry(|Before(functor, a, r)|, |Expected(functor, a, r)|)
    ensures forall r :: 0 <= r < a.Rows() && !a.lists.IsNull(r) ==>
      && result.entries[r].offset + result.entries[r].length <= |result.child|
      && result.Row(r) == Some(Expected(functor, a, r))
  {
    hide Before, Expected;
    forall r | 0 <= r < a.Rows() && !a.lists.IsNull(r)
      ensures result.entries[r].offset + result.entries[r].length <= |result.child|
      ensures result.Row(r) == Some(Expected(functor, a, r))
    {
      BeforeSlice(functor, a, r, a.Rows());
    }
  }

  /** What holds between rows: the arguments are set up, and elements wait in the batch. */
  ghost predicate Waiting<V>(a: Args<V>, executeInfo: LambdaExecuteInfo<V>, row: nat, m: nat, batch: seq<(nat, nat)>)
    requires a.Valid() && row <= a.Rows()
    reads executeInfo.childSel, executeInfo.rowSel, executeInfo.indexVector
  {
    && executeInfo.args == a
    && executeInfo.childSel != executeInfo.rowSel && executeInfo.childSel.Length >= 1
    && executeInfo.childSel.Length == executeInfo.rowSel.Length == executeInfo.indexVector.Length
    && Consecutive(a, m, batch) && m + |batch| == Start(a, row)
    && executeInfo.Gathered(batch)
  }

  /** One row: NULL and empty, or gathered. */
  method NextRow<V>(functor: Functor, a: Args<V>, row: nat, result: ResultVector<V>, info: ListFilterInfo,
                    executeInfo: LambdaExecuteInfo<V>, offset: nat, count: nat, ghost m: nat,
                    ghost batch: seq<(nat, nat)>)
    returns (next: nat, elemCnt: nat, ghost done: nat, ghost pending: seq<(nat, nat)>)
    requires a.Valid() && row < a.Rows() && Done(functor, a, row, m, offset, info, result)
    requires Waiting(a, executeInfo, row, m, batch) && |batch| == count
    requires result.validity.Length == a.Rows()
    modifies executeInfo`inputChunk, executeInfo`lambdaChunk
    modifies executeInfo.childSel, executeInfo.rowSel, executeInfo.indexVector
    modifies info, result`child, result.entries, result.validity
    ensures Done(functor, a, row + 1, done, next, info, result)
    ensures Waiting(a, executeInfo, row + 1, done, pending) && |pending| == elemCnt
    ensures result.validity[..] ==
            if a.lists.IsNull(row) then old(result.validity[..])[row := false] else old(result.validity[..])
  {
    hide Done, Start, Consecutive;
    next, elemCnt, done, pending := offset, count, m, batch;
    var listIdx := a.lists.sel[row];
    var entry := a.lists.entries[listIdx];
    if !a.lists.validity[listIdx] {
      SetInvalid(functor, result, row, info, a, m, next);
      PushEmptyList(functor, result, next, row, info, a, m);
      StartBehindNull(a, row);
    } else {
      next := SetResultEntry(functor, result, next, row, info, entry.length, a, m);
      elemCnt, done, pending := GatherRow(functor, result, row, entry, elemCnt, info, executeInfo, m, next, batch);
    }
  }

  /** Gather the elements of all rows; the last batch is left to be run. */
  method GatherRows<V>(functor: Functor, a: Args<V>, result: ResultVector<V>, info: ListFilterInfo,
                       executeInfo: LambdaExecuteInfo<V>)
    returns (elemCnt: nat, ghost m: nat, ghost offset: nat, ghost batch: seq<(nat, nat)>)
    requires a.Valid() && Done(functor, a, 0, 0, 0, info, result) && Waiting(a, executeInfo, 0, 0, [])
    requires result.validity.Length == a.Rows() && forall r :: 0 <= r < a.Rows() ==> result.validity[r]
    modifies executeInfo`inputChunk, executeInfo`lambdaChunk
    modifies executeInfo.childSel, executeInfo.rowSel, executeInfo.indexVector
    modifies info, result`child, result.entries, result.validity
    ensures Done(functor, a, a.Rows(), m, offset, info, result)
    ensures Waiting(a, executeInfo, a.Rows(), m, batch) && |batch| == elemCnt
    ensures forall r :: 0 <= r < a.Rows() ==> (result.validity[r] <==> !a.lists.IsNull(r))
  {
    hide Done, Waiting, Start;
    var next: nat := 0;
    elemCnt, m, batch := 0, 0, [];
    for row := 0 to a.Rows()
      invariant Done(functor, a, row, m, next, info, result)
      invariant Waiting(a, executeInfo, row, m, batch) && |batch| == elemCnt
      invariant forall r :: 0 <= r < a.Rows() ==> (result.validity[r] <==> r >= row || !a.lists.IsNull(r))
    {
      ghost var before := result.validity[..];
      next, elemCnt, m, batch := NextRow(functor, a, row, result, info, executeInfo, next, elemCnt, m, batch);
      assert forall r :: 0 <= r < a.Rows() && r != row ==> result.validity[..][r] == before[r];
      assert result.validity[..][row] == if a.lists.IsNull(row) then false else before[row];
    }
    offset := next;
  }

  /** Whatever the size of the batches, every row of the result is the list computed from that row alone, NULL
      where the row is NULL, and the child vector is just these lists, one behind the other. */
  method ExecuteLambda<V>(functor: Functor, a: Args<V>, vectorSize: nat) returns (result: ResultVector<V>)
    requires a.Valid() && vectorSize >= 1
    ensures fresh(result) && result.entries.Length == result.validity.Length == a.Rows()
    ensures forall r :: 0 <= r < a.Rows() ==> (result.validity[r] <==> !a.lists.IsNull(r))
    ensures forall r :: 0 <= r < a.Rows() && !a.lists.IsNull(r) ==>
      && result.entries[r].offset == |Before(functor, a, r)|
      && result.entries[r].offset + result.entries[r].length <= |result.child|
      && result.Row(r) == Some(Expected(functor, a, r))
    ensures result.child == Before(functor, a, a.Rows())
  {
    hide Done, Before, Expected;
    result := new ResultVector(a.Rows());
    var info := new ListFilterInfo();
    var executeInfo := new LambdaExecuteInfo(a, vectorSize);
    StartDone(functor, a, info, result);
    var elemCnt;
    ghost var m, offset, batch;
    elemCnt, m, offset, batch := GatherRows(functor, a, result, info, executeInfo);
    RunBatch(functor, result, elemCnt, info, executeInfo, a.Rows(), m, offset, batch);
    DoneIsExpected(functor, a, offset, info, result);
    RowsAreExpected(functor, a, result);
  }
}
