/** The answer editors of the question management page: the list of
    answers resized by the answer-count field, the answer table with its
    row and column buttons and cell edits, the reshaping of stored answers
    into the editor when a question is opened, and the flattening of the
    table back into the submitted answers. */
module QuestionManagementPage {
  import opened JsRuntime

  /** An answer in the editor. The browser-side image file and its preview
      URL are not modelled; `imageUrl` is the stored `image_url`. */
  datatype Response = Response(texte: string, estCorrecte: bool, imageUrl: Option<string>)

  /** `emptyResponse()`. */
  const EmptyResponse: Response := Response("", true, None)

  const DefaultReponsesCount: int := 6
  const DefaultTableRows: int := 2
  const DefaultTableCols: int := 2
  const MaxReponsesCount: int := 10

  function Min(a: int, b: int): int { if a <= b then a else b }
  function Max(a: int, b: int): int { if a >= b then a else b }

  // ---------------------------------------------------------------------
  // chunkArray and `.flat()`

  /** The consecutive slices of `size` items, the last one possibly shorter. */
  function Chunks<T>(a: seq<T>, size: nat): seq<seq<T>>
    requires size >= 1
    decreases |a|
  {
    if |a| == 0 then []
    else
      var n := Min(size, |a|);
      [a[..n]] + Chunks(a[n..], size)
  }

  /** `rows.flat()`. */
  function Flat<T>(rows: seq<seq<T>>): seq<T>
  {
    if rows == [] then [] else rows[0] + Flat(rows[1..])
  }

  /** The index loop of `chunkArray`; a size of 0 or less never ends there,
      so it is required to be positive. */
  method ChunkArray<T>(items: seq<T>, size: nat) returns (chunks: seq<seq<T>>)
    requires size >= 1
    ensures chunks == Chunks(items, size)
  {
    chunks := [];
    var i := 0;
    while i < |items|
      invariant 0 <= i
      invariant chunks + Chunks(items[Min(i, |items|)..], size) == Chunks(items, size)
      decreases |items| - i
    {
      // `array.slice(i, i + size)` stops at the end of the items.
      var chunk := items[i..Min(i + size, |items|)];
      assert items[i..][..Min(size, |items| - i)] == chunk;
      assert items[i..][Min(size, |items| - i)..] == items[Min(i + size, |items|)..];
      chunks := chunks + [chunk];
      i := i + size;
    }
    assert Chunks(items[Min(i, |items|)..], size) == [];
    assert chunks + [] == chunks;
  }

  /** Flattening the chunks gives back the input exactly. */
  lemma {:induction false} ChunksFlatten<T>(a: seq<T>, size: nat)
    requires size >= 1
    ensures Flat(Chunks(a, size)) == a
    decreases |a|
  {
    if |a| > 0 {
      var n := Min(size, |a|);
      var r := Chunks(a, size);
      assert r == [a[..n]] + Chunks(a[n..], size);
      ChunksFlatten(a[n..], size);
      assert r[0] == a[..n] && r[1..] == Chunks(a[n..], size);
      assert Flat(r) == a[..n] + Flat(Chunks(a[n..], size));
      assert a[..n] + a[n..] == a;
    }
  }

  /** There are ceil(|a| / size) chunks: every chunk but the last holds
      `size` items, the last between 1 and `size`. */
  lemma {:induction false} ChunksShape<T>(a: seq<T>, size: nat)
    requires size >= 1
    ensures var r := Chunks(a, size);
            && (r == [] <==> a == [])
            && |r| * size >= |a|
            && (r != [] ==> (|r| - 1) * size < |a|)
            && (forall k :: 0 <= k < |r| - 1 ==> |r[k]| == size)
            && (r != [] ==> 1 <= |r[|r| - 1]| <= size)
    decreases |a|
  {
    if |a| > 0 {
      var n := Min(size, |a|);
      var rest := Chunks(a[n..], size);
      ChunksShape(a[n..], size);
      var r := Chunks(a, size);
      assert r == [a[..n]] + rest;
      assert |r| == |rest| + 1;
      MulSucc(|rest|, size);
      if rest != [] {
        MulSucc(|rest| - 1, size);
      }
    }
  }

  /** Chunk `k` is the slice from `k * size` to `(k + 1) * size`, cut at the end. */
  lemma {:induction false} ChunkAt<T>(a: seq<T>, size: nat, k: nat)
    requires size >= 1
    requires k < |Chunks(a, size)|
    ensures k * size < |a|
    ensures Chunks(a, size)[k] == a[k * size..Min((k + 1) * size, |a|)]
    decreases |a|
  {
    var n := Min(size, |a|);
    if k > 0 {
      var tail := a[n..];
      ChunkAt(tail, size, k - 1);
      assert n == size;
      MulSucc(k - 1, size);
      MulSucc(k, size);
      var lo := (k - 1) * size;
      var hi := Min(k * size, |tail|);
      assert Chunks(a, size)[k] == Chunks(tail, size)[k - 1] == tail[lo..hi];
      assert size + lo == k * size && size + hi == Min((k + 1) * size, |a|);
      assert tail[lo..hi] == a[size + lo..size + hi];
    }
  }

  lemma {:induction false} MulSucc(m: int, c: int)
    ensures (m + 1) * c == m * c + c
  {
  }

  // ---------------------------------------------------------------------
  // The answer list

  /** The list cut or padded with empty answers to `length` entries. */
  function Padded(a: seq<Response>, length: nat): (r: seq<Response>)
    ensures |r| == length
  {
    seq(length, i requires 0 <= i < length => if i < |a| then a[i] else EmptyResponse)
  }

  /** `Math.max(1, Math.min(10, parseInt(value, 10) || 1))`: NaN and 0 read as 1. */
  function RequestedCount(value: string): (n: int)
    ensures 1 <= n <= MaxReponsesCount
  {
    var parsed := ParseInt(value);
    var n := if parsed.None? || parsed.value == 0 then 1 else parsed.value;
    Max(1, Min(MaxReponsesCount, n))
  }

  /** A typed count is taken as is inside [1, 10] and clamped outside. */
  lemma {:induction false} RequestedCountOfNumber(k: int)
    ensures RequestedCount(IntToString(k)) == if k < 1 then 1 else if k > MaxReponsesCount then MaxReponsesCount else k
  {
    ParseIntOfIntToString(k);
  }

  /** The `while (list.length < count) list.push(emptyResponse())` loop. */
  method PushEmptyUntil(current: seq<Response>, count: int) returns (grown: seq<Response>)
    ensures grown == Padded(current, Max(|current|, count))
  {
    grown := current;
    while |grown| < count
      invariant |current| <= |grown| <= Max(|current|, count)
      invariant grown[..|current|] == current
      invariant forall i :: |current| <= i < |grown| ==> grown[i] == EmptyResponse
      decreases count - |grown|
    {
      grown := grown + [EmptyResponse];
    }
    forall i | 0 <= i < |grown| ensures grown[i] == Padded(current, |grown|)[i] {
      if i < |current| {
        assert grown[..|current|][i] == grown[i];
      }
    }
  }

  /** `handleNombreReponsesChange`: push empty answers up to the clamped
      count, then keep the first `count` answers. */
  method NombreReponsesChange(value: string, current: seq<Response>) returns (count: int, reponses: seq<Response>)
    ensures count == RequestedCount(value)
    ensures reponses == Padded(current, count)
  {
    count := RequestedCount(value);
    var grown := PushEmptyUntil(current, count);
    reponses := grown[..count];
  }

  /** Resizing to a larger count and back restores the list, and resizing
      to the current length changes nothing. */
  lemma {:induction false} PaddedRoundTrip(a: seq<Response>, length: nat)
    requires length >= |a|
    ensures Padded(Padded(a, length), |a|) == a
    ensures Padded(a, |a|) == a
  {
  }

  /** Shrinking keeps the first answers unchanged. */
  lemma {:induction false} PaddedShrinks(a: seq<Response>, length: nat)
    requires length <= |a|
    ensures Padded(a, length) == a[..length]
  {
  }

  /** `handleStartEdit` in list mode: the stored answers, padded with empty
      answers up to six fields. */
  method ListForEdit(stored: seq<Response>) returns (reponses: seq<Response>, count: int)
    ensures count == Max(DefaultReponsesCount, |stored|)
    ensures reponses == Padded(stored, count)
  {
    count := Max(DefaultReponsesCount, |stored|);
    reponses := PushEmptyUntil(stored, count);
  }

  // ---------------------------------------------------------------------
  // The answer table

  /** A table with its row and column counts. */
  datatype Table = Table(rows: int, cols: int, data: seq<seq<Response>>)

  /** `data` has `rows` rows of `cols` cells each. */
  ghost predicate Rectangular(t: Table)
  {
    t.rows >= 0 && t.cols >= 0 && |t.data| == t.rows && forall r :: 0 <= r < t.rows ==> |t.data[r]| == t.cols
  }

  datatype Dimension = Lignes | Colonnes

  /** `updateDimensions`: the chosen count moves by `delta` but not below 1;
      cells inside both the old and the new bounds are kept, the others
      are empty answers. */
  function UpdateDimensions(kind: Dimension, delta: int, t: Table): (r: Table)
    requires Rectangular(t)
    ensures Rectangular(r)
    ensures r.rows == (if kind == Lignes then Max(1, t.rows + delta) else t.rows)
    ensures r.cols == (if kind == Colonnes then Max(1, t.cols + delta) else t.cols)
    ensures forall i, j :: 0 <= i < r.rows && 0 <= j < r.cols ==>
              r.data[i][j] == if i < t.rows && j < t.cols then t.data[i][j] else EmptyResponse
  {
    var rows := if kind == Lignes then Max(1, t.rows + delta) else t.rows;
    var cols := if kind == Colonnes then Max(1, t.cols + delta) else t.cols;
    Table(rows, cols,
          seq(rows, r requires 0 <= r < rows =>
            seq(cols, c requires 0 <= c < cols =>
              if r < t.rows && c < t.cols then t.data[r][c] else EmptyResponse)))
  }

  /** Adding rows or columns and removing them again restores the table. */
  lemma {:induction false} UpdateDimensionsRoundTrip(kind: Dimension, delta: nat, t: Table)
    requires Rectangular(t) && t.rows >= 1 && t.cols >= 1
    ensures UpdateDimensions(kind, -(delta as int), UpdateDimensions(kind, delta, t)) == t
  {
    var grown := UpdateDimensions(kind, delta, t);
    var back := UpdateDimensions(kind, -(delta as int), grown);
    assert back.rows == t.rows && back.cols == t.cols;
    forall r | 0 <= r < t.rows ensures back.data[r] == t.data[r] {
      forall c | 0 <= c < t.cols ensures back.data[r][c] == t.data[r][c] {
        assert back.data[r][c] == grown.data[r][c];
      }
    }
  }

  /** Removing rows or columns drops exactly the cells beyond the new bound. */
  lemma {:induction false} UpdateDimensionsShrinks(kind: Dimension, delta: nat, t: Table)
    requires Rectangular(t) && t.rows >= 1 && t.cols >= 1
    ensures var r := UpdateDimensions(kind, -(delta as int), t);
            forall i, j :: 0 <= i < r.rows && 0 <= j < r.cols ==> r.data[i][j] == t.data[i][j]
  {
  }

  /** `handleTableCellChange`: the `texte` of cell (rowIndex, colIndex)
      becomes `text`; indexes outside the table change nothing. */
  function TableCellChange(data: seq<seq<Response>>, rowIndex: int, colIndex: int, text: string)
    : (r: seq<seq<Response>>)
    ensures |r| == |data|
    ensures forall i :: 0 <= i < |data| ==> |r[i]| == |data[i]|
    ensures forall i, j :: 0 <= i < |data| && 0 <= j < |data[i]| ==>
              r[i][j] == if i == rowIndex && j == colIndex then data[i][j].(texte := text) else data[i][j]
  {
    seq(|data|, i requires 0 <= i < |data| =>
      if i == rowIndex then
        seq(|data[i]|, j requires 0 <= j < |data[i]| => if j == colIndex then data[i][j].(texte := text) else data[i][j])
      else data[i])
  }

  /** Typing the old text back into the cell restores the table. */
  lemma {:induction false} TableCellChangeUndo(data: seq<seq<Response>>, rowIndex: int, colIndex: int, text: string)
    requires 0 <= rowIndex < |data| && 0 <= colIndex < |data[rowIndex]|
    ensures TableCellChange(TableCellChange(data, rowIndex, colIndex, text), rowIndex, colIndex,
                            data[rowIndex][colIndex].texte) == data
  {
    var once := TableCellChange(data, rowIndex, colIndex, text);
    var twice := TableCellChange(once, rowIndex, colIndex, data[rowIndex][colIndex].texte);
    forall i | 0 <= i < |data| ensures twice[i] == data[i] {
      forall j | 0 <= j < |data[i]| ensures twice[i][j] == data[i][j] {
      }
    }
  }

  /** A cell edit keeps the table rectangular. */
  lemma {:induction false} TableCellChangeKeepsShape(t: Table, rowIndex: int, colIndex: int, text: string)
    requires Rectangular(t)
    ensures Rectangular(Table(t.rows, t.cols, TableCellChange(t.data, rowIndex, colIndex, text)))
  {
  }

  /** `reponses_meta.colonnes || 2`; `None` stands for a missing count. A
      negative count makes the page loop or throw, so it is excluded where
      this is used. */
  function ColumnsFor(colonnes: Option<int>): int
  {
    if colonnes.Some? && colonnes.value != 0 then colonnes.value else DefaultTableCols
  }

  /** `handleStartEdit` in table mode: the stored answers chunked into rows
      of `cols` cells, at least two rows, gaps filled with empty answers. */
  function TableForEdit(stored: seq<Response>, colonnes: Option<int>): (t: Table)
    requires colonnes.None? || colonnes.value >= 0
    ensures Rectangular(t)
    ensures t.cols == ColumnsFor(colonnes) && t.cols >= 1
  {
    var cols := ColumnsFor(colonnes);
    var tableData := Chunks(stored, cols);
    var numRows := if |tableData| == 0 then DefaultTableRows else |tableData|;
    Table(numRows, cols,
          seq(numRows, r requires 0 <= r < numRows =>
            seq(cols, c requires 0 <= c < cols =>
              if r < |tableData| && c < |tableData[r]| then tableData[r][c] else EmptyResponse)))
  }

  /** `count` empty answers. */
  function Empties(count: nat): (r: seq<Response>)
    ensures |r| == count
  {
    seq(count, _ => EmptyResponse)
  }

  /** Each row padded with empty answers to `cols` cells. */
  function PadRows(rows: seq<seq<Response>>, cols: nat): seq<seq<Response>>
  {
    seq(|rows|, r requires 0 <= r < |rows| => Padded(rows[r], cols))
  }

  /** The chunks of the stored answers, each padded to a full row, flatten
      to the stored answers followed by empty answers. */
  lemma {:induction false} FlatPaddedChunks(a: seq<Response>, cols: nat)
    requires cols >= 1
    ensures |Chunks(a, cols)| * cols >= |a|
    ensures Flat(PadRows(Chunks(a, cols), cols)) == a + Empties(|Chunks(a, cols)| * cols - |a|)
    decreases |a|
  {
    var chunks := Chunks(a, cols);
    var rows := PadRows(chunks, cols);
    if |a| == 0 {
      assert a + Empties(0) == [];
    } else {
      var n := Min(cols, |a|);
      var rest := Chunks(a[n..], cols);
      assert chunks == [a[..n]] + rest;
      FlatPaddedChunks(a[n..], cols);
      assert rows[1..] == PadRows(rest, cols);
      assert Flat(rows) == rows[0] + Flat(PadRows(rest, cols));
      assert |chunks| == |rest| + 1;
      MulSucc(|rest|, cols);
      if |a| <= cols {
        assert rest == [];
        assert rows[0] == a + Empties(cols - |a|);
      } else {
        assert rows[0] == a[..cols];
        assert a[..cols] + a[cols..] == a;
      }
    }
  }

  /** The table holds the stored answers' rows padded with empty answers;
      with no stored answer, two empty rows. */
  lemma {:induction false} TableForEditRows(stored: seq<Response>, colonnes: Option<int>)
    requires colonnes.None? || colonnes.value >= 0
    ensures var t := TableForEdit(stored, colonnes);
            && (stored != [] ==> t.data == PadRows(Chunks(stored, t.cols), t.cols))
            && (stored == [] ==> t.rows == DefaultTableRows && t.data == [Empties(t.cols), Empties(t.cols)])
  {
    var t := TableForEdit(stored, colonnes);
    var chunks := Chunks(stored, t.cols);
    ChunksShape(stored, t.cols);
    if stored != [] {
      forall r | 0 <= r < t.rows ensures t.data[r] == Padded(chunks[r], t.cols) {
      }
    } else {
      assert t.data[0] == Empties(t.cols) && t.data[1] == Empties(t.cols);
    }
  }

  /** The answers the table form submits: `.flat()` and no image. */
  function TablePayload(data: seq<seq<Response>>): seq<Response>
  {
    var flat := Flat(data);
    seq(|flat|, i requires 0 <= i < |flat| => Response(flat[i].texte, flat[i].estCorrecte, None))
  }

  /** The stored answers without their images. */
  function WithoutImages(stored: seq<Response>): seq<Response>
  {
    seq(|stored|, i requires 0 <= i < |stored| => Response(stored[i].texte, stored[i].estCorrecte, None))
  }

  /** Opening a table question and submitting it unchanged sends the stored
      answers' text and correctness in their order, images dropped,
      followed only by empty answers, filling the whole table. */
  lemma {:induction false} TableRoundTrip(stored: seq<Response>, colonnes: Option<int>)
    requires colonnes.None? || colonnes.value >= 0
    ensures var t := TableForEdit(stored, colonnes);
            var payload := TablePayload(t.data);
            && |payload| == t.rows * t.cols >= |stored|
            && payload[..|stored|] == WithoutImages(stored)
            && forall i :: |stored| <= i < |payload| ==> payload[i] == EmptyResponse
  {
    var t := TableForEdit(stored, colonnes);
    TableForEditRows(stored, colonnes);
    var flat := Flat(t.data);
    if stored == [] {
      var second := t.data[1..];
      assert second == [Empties(t.cols)];
      assert second[1..] == [];
      assert Flat(second) == Empties(t.cols) + Flat(second[1..]);
      assert Flat(second) == Empties(t.cols);
      assert flat == Empties(t.cols) + Empties(t.cols);
    } else {
      FlatPaddedChunks(stored, t.cols);
    }
  }

  // ---------------------------------------------------------------------
  // Opening a question for editing

  /** The editor state `handleStartEdit` sets up. */
  datatype Editor = ListEditor(reponses: seq<Response>, count: int) | TableEditor(table: Table)

  /** `metaType` is `reponses_meta?.type || 'liste'`: only "tableau" opens
      the table editor. */
  method StartEdit(stored: seq<Response>, metaType: string, colonnes: Option<int>) returns (editor: Editor)
    requires metaType == "tableau" ==> colonnes.None? || colonnes.value >= 0
    ensures metaType == "tableau" ==> editor == TableEditor(TableForEdit(stored, colonnes))
    ensures metaType != "tableau" ==>
              editor.ListEditor? && editor.count == Max(DefaultReponsesCount, |stored|)
              && editor.reponses == Padded(stored, editor.count)
  {
    if metaType == "tableau" {
      editor := TableEditor(TableForEdit(stored, colonnes));
    } else {
      var reponses, count := ListForEdit(stored);
      editor := ListEditor(reponses, count);
    }
  }
}
