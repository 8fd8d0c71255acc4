/** The row mode of the CSV reader (yasl/io/rw/csv_reader.cc) over a character stream: a sparse map
    from row numbers to stream positions, filled while reading, makes seeking fast. */
module CsvReader {
  import opened Wrappers

  // ---- Lines of a text: the linear scan ----

  /** Where the line that contains position p ends. */
  function EndOfLine(text: string, delimiter: char, p: nat): (e: nat)
    requires p <= |text|
    ensures p <= e <= |text|
    decreases |text| - p
  {
    if p == |text| || text[p] == delimiter then p else EndOfLine(text, delimiter, p + 1)
  }

  /** Where the next line begins. */
  function NextLinePos(text: string, delimiter: char, p: nat): (q: nat)
    requires p <= |text|
    ensures p <= q <= |text| && (p < |text| ==> p < q)
  {
    var e := EndOfLine(text, delimiter, p);
    if e < |text| then e + 1 else e
  }

  /** All lines from position p on. The text after the last delimiter is a line only if it is not empty. */
  function Lines(text: string, delimiter: char, p: nat): seq<string>
    requires p <= |text|
    decreases |text| - p
  {
    if p == |text| then []
    else [text[p..EndOfLine(text, delimiter, p)]] + Lines(text, delimiter, NextLinePos(text, delimiter, p))
  }

  /** The position behind the first k lines from p on. */
  function Offset(text: string, delimiter: char, p: nat, k: nat): (q: nat)
    requires p <= |text| && k <= |Lines(text, delimiter, p)|
    ensures p <= q <= |text|
    decreases k
  {
    if k == 0 then p else Offset(text, delimiter, NextLinePos(text, delimiter, p), k - 1)
  }

  /** Reading one line at the offset of row k gives row k and leads to the offset of row k + 1; the
      text ends exactly at the offset of the number of rows. */
  lemma {:induction false} OffsetStep(text: string, delimiter: char, p: nat, k: nat)
    requires p <= |text| && k <= |Lines(text, delimiter, p)|
    ensures var q := Offset(text, delimiter, p, k);
            && (q < |text| <==> k < |Lines(text, delimiter, p)|)
            && (k < |Lines(text, delimiter, p)| ==>
                  && Lines(text, delimiter, p)[k] == text[q..EndOfLine(text, delimiter, q)]
                  && Offset(text, delimiter, p, k + 1) == NextLinePos(text, delimiter, q))
    decreases k
  {
    if k > 0 {
      OffsetStep(text, delimiter, NextLinePos(text, delimiter, p), k - 1);
    }
  }

  // ---- The stream ----

  /** An input stream with the flags of the C++ standard library: `eof` is set by running into the
      end while reading, `fail` by reading nothing. */
  class InputStream {
    const text: string
    var pos: nat
    var eof: bool
    var fail: bool

    ghost predicate Valid()
      reads this
    {
      pos <= |text| && (fail ==> eof) && (eof ==> pos == |text|)
    }

    constructor (text: string)
      ensures Valid() && this.text == text && pos == 0 && !eof
    {
      this.text, pos, eof, fail := text, 0, false, false;
    }

    method GetLine(delimiter: char) returns (ok: bool, line: string)
      requires Valid()
      modifies this
      ensures Valid() && ok == (!old(eof) && old(pos) < |text|)
      ensures ok ==>
                var e := EndOfLine(text, delimiter, old(pos));
                line == text[old(pos)..e] && pos == NextLinePos(text, delimiter, old(pos)) && eof == (e == |text|)
      ensures !ok ==> line == "" && eof && pos == |text|
    {
      if eof || pos == |text| {
        eof, fail := true, true;
        return false, "";
      }
      var e := EndOfLine(text, delimiter, pos);
      line := text[pos..e];
      eof := e == |text|;
      pos := if e < |text| then e + 1 else e;
      ok := true;
    }

    method Seekg(p: nat)
      requires p <= |text|
      modifies this
      ensures Valid() && pos == p && !eof
    {
      pos, eof, fail := p, false, false;
    }
  }

  // ---- The reader ----

  /** Whether a header line has proper names and all the columns asked for, whether a line has as
      many fields as the header, and whether its fields convert. */
  datatype Schema = Schema(accepts: string -> bool, fits: string -> bool, converts: string -> bool)

  class CsvReader {
    const stream: InputStream
    const lineDelimiter: char
    const batchSize: nat
    const schema: Schema
    var inited: bool
    var currentIndex: nat
    var totalRows: Option<nat>
    var rowsMap: map<nat, nat>
    /** Where row 0 begins. */
    ghost var start: nat

    ghost function Rows(): seq<string>
      reads this`start
    {
      if start <= |stream.text| then Lines(stream.text, lineDelimiter, start) else []
    }

    /** The offset of row k by linear scan. */
    ghost function RowOffset(k: nat): nat
      requires start <= |stream.text| && k <= |Rows()|
      reads this`start
    {
      Offset(stream.text, lineDelimiter, start, k)
    }

    /** The index agrees with the linear scan. */
    ghost predicate Indexed()
      reads this
    {
      && start <= |stream.text|
      && (forall k | k in rowsMap :: k <= |Rows()| && rowsMap[k] == RowOffset(k))
      && (totalRows.Some? ==> totalRows.value == |Rows()|)
    }

    /** The stream stands at the current row. */
    ghost predicate InPlace()
      reads this, stream
    {
      start <= |stream.text| && stream.Valid() && currentIndex <= |Rows()| && stream.pos == RowOffset(currentIndex)
    }

    ghost predicate Valid()
      reads this, stream
    {
      inited && batchSize > 0 && Indexed() && 0 in rowsMap && InPlace()
    }

    constructor (text: string, lineDelimiter: char, batchSize: nat, schema: Schema)
      ensures fresh(stream) && stream.text == text && stream.pos == 0 && !stream.eof && stream.Valid()
      ensures this.lineDelimiter == lineDelimiter && this.batchSize == batchSize && this.schema == schema
      ensures !inited && currentIndex == 0 && totalRows.None? && rowsMap == map[]
    {
      stream := new InputStream(text);
      this.lineDelimiter, this.batchSize, this.schema := lineDelimiter, batchSize, schema;
      inited, currentIndex, totalRows, rowsMap, start := false, 0, None, map[], 0;
    }

    /** Adds the current row to the index, unless the index has it or a later one. */
    method UpdateRowMap()
      requires Indexed() && InPlace()
      modifies this`rowsMap
      ensures Indexed() && InPlace()
      ensures rowsMap == if exists k | k in old(rowsMap) :: k >= currentIndex then old(rowsMap)
                         else old(rowsMap)[currentIndex := RowOffset(currentIndex)]
    {
      if exists k | k in rowsMap :: k > currentIndex {
        return;
      }
      if currentIndex !in rowsMap {
        rowsMap := rowsMap[currentIndex := stream.pos];
      }
    }

    /** Moves one row on, if there is one. */
    method NextLine() returns (ok: bool, line: string)
      requires Indexed() && InPlace()
      modifies stream
      ensures stream.Valid() && start <= |stream.text|
      ensures ok == (currentIndex < |Rows()| && !old(stream.eof))
      ensures ok ==> line == Rows()[currentIndex] && stream.pos == RowOffset(currentIndex + 1)
      ensures !ok ==> InPlace() && currentIndex == |Rows()| && stream.eof
    {
      OffsetStep(stream.text, lineDelimiter, start, currentIndex);
      ok, line := stream.GetLine(lineDelimiter);
    }

    method CountLines()
      requires Indexed() && InPlace() && batchSize > 0
      modifies this`currentIndex, this`totalRows, this`rowsMap, stream
      ensures Indexed() && InPlace() && totalRows.Some? && currentIndex == |Rows()|
      ensures forall k | k in old(rowsMap) :: k in rowsMap
    {
      var ok, line := NextLine();
      while ok
        invariant Indexed() && stream.Valid()
        invariant ok ==> currentIndex < |Rows()| && stream.pos == RowOffset(currentIndex + 1)
        invariant !ok ==> InPlace() && currentIndex == |Rows()|
        invariant forall k | k in old(rowsMap) :: k in rowsMap
        decreases if ok then |Rows()| - currentIndex + 1 else 0
      {
        currentIndex := currentIndex + 1;
        if currentIndex % batchSize == 0 {
          UpdateRowMap();
        }
        ok, line := NextLine();
      }
      totalRows := Some(currentIndex);
    }

    /** `Init`: fails without a header line or with one that the schema refuses, and when the rows are
        counted and there are none. */
    method Init(countLines: bool) returns (r: Result<string>)
      requires !inited && stream.Valid() && stream.pos == 0 && !stream.eof && batchSize > 0
      requires currentIndex == 0 && totalRows.None? && rowsMap == map[]
      modifies this, stream
      ensures var header := stream.text[..EndOfLine(stream.text, lineDelimiter, 0)];
              if stream.text == "" || !schema.accepts(header) then
                r == Err && !inited
              else
                && start == NextLinePos(stream.text, lineDelimiter, 0)
                && Valid() && currentIndex == 0 && totalRows == (if countLines then Some(|Rows()|) else None)
                && r == if countLines && Rows() == [] then Err else Ok(header)
    {
      var ok, header := stream.GetLine(lineDelimiter);
      if !ok || !schema.accepts(header) {
        return Err;
      }
      start := stream.pos;
      UpdateRowMap();
      if countLines {
        CountLines();
      }
      inited := true;
      var sought := Seek(0);
      r := if sought.Ok? then Ok(header) else Err;
    }

    /** The last row up to `index` that the index knows. */
    method LastKnown(index: nat) returns (k: nat)
      requires 0 in rowsMap
      ensures k <= index && k in rowsMap && forall j | j in rowsMap :: j <= k || index < j
    {
      k := index;
      while k !in rowsMap
        invariant k <= index && forall j | j in rowsMap :: j <= k || index < j
        decreases k
      {
        k := k - 1;
      }
    }

    /** Reaches exactly the rows of the file, and its end as long as the number of rows is unknown;
        a call that throws leaves the reader where it was, or at the end. */
    method Seek(index: nat) returns (r: Result<()>)
      requires Valid()
      modifies this`currentIndex, stream
      ensures Valid()
      ensures r.Ok? <==> index < |Rows()| || (index == |Rows()| && totalRows.None?)
      ensures r.Ok? ==> currentIndex == index
      ensures r.Err? ==> currentIndex == if totalRows.None? then |Rows()| else old(currentIndex)
    {
      if totalRows.Some? && index >= totalRows.value {
        return Err;
      }
      var k := LastKnown(index);
      stream.Seekg(rowsMap[k]);
      currentIndex := k;
      var more := true;
      while currentIndex < index && more
        invariant Indexed() && InPlace() && currentIndex <= index
        invariant !more ==> currentIndex == |Rows()| < index
        invariant stream.eof ==> currentIndex == |Rows()|
        decreases index - currentIndex, more
      {
        var line;
        EofMeansEnd();
        more, line := NextLine();
        if more {
          currentIndex := currentIndex + 1;
          EofMeansEnd();
        }
      }
      r := if currentIndex == index then Ok(()) else Err;
    }

    lemma EofMeansEnd()
      requires Indexed() && InPlace()
      ensures stream.eof ==> currentIndex == |Rows()|
    {
      OffsetStep(stream.text, lineDelimiter, start, currentIndex);
    }

    /** The end of a batch of the given size. */
    ghost function BatchEnd(from: nat, size: nat): nat
      reads this`start
    {
      if from + size < |Rows()| then from + size else |Rows()|
    }

    ghost predicate Good(k: nat)
      reads this`start
      requires k < |Rows()|
    {
      schema.fits(Rows()[k]) && schema.converts(Rows()[k])
    }

    /** The loop of `NextRow`. */
    method ReadBatch(size: nat) returns (r: Result<seq<string>>)
      requires Indexed() && InPlace() && !stream.eof
      modifies this`currentIndex, stream
      ensures stream.Valid() && start <= |stream.text|
      ensures r.Err? <==> exists k | old(currentIndex) <= k < BatchEnd(old(currentIndex), size) :: !Good(k)
      ensures r.Ok? ==> InPlace() && currentIndex == BatchEnd(old(currentIndex), size)
      ensures r.Ok? ==> r.value == Rows()[old(currentIndex)..currentIndex]
    {
      hide Lines, Offset, EndOfLine, NextLinePos;
      var count, rows, more := 0, [], true;
      while count < size && more
        invariant count <= size && Indexed() && InPlace() && currentIndex == old(currentIndex) + count
        invariant rows == Rows()[old(currentIndex)..currentIndex]
        invariant forall k | old(currentIndex) <= k < currentIndex :: Good(k)
        invariant !more ==> currentIndex == |Rows()|
        decreases size - count, more
      {
        var line;
        EofMeansEnd();
        more, line := NextLine();
        if more {
          if !schema.fits(line) {
            assert !Good(currentIndex);
            return Err;
          }
          count, currentIndex := count + 1, currentIndex + 1;
          if !schema.converts(line) {
            assert !Good(currentIndex - 1);
            return Err;
          }
          rows := rows + [line];
          assert Good(currentIndex - 1);
        }
      }
      r := Ok(rows);
    }

    /** `NextRow`: throws on the first row of the batch that does not fit or convert; what the reader
        does after that is not stated. Running into the end makes the number of rows known. */
    method NextRow(size: nat) returns (r: Result<seq<string>>)
      requires Valid()
      modifies this`currentIndex, this`totalRows, this`rowsMap, stream
      ensures r.Err? <==> exists k | old(currentIndex) <= k < BatchEnd(old(currentIndex), size) :: !Good(k)
      ensures r.Ok? ==> Valid() && currentIndex == BatchEnd(old(currentIndex), size)
      ensures r.Ok? ==> r.value == Rows()[old(currentIndex)..currentIndex]
      ensures r.Ok? ==> totalRows == if stream.eof && !old(stream.eof) then Some(|Rows()|) else old(totalRows)
    {
      EofMeansEnd();
      if stream.eof {
        return Ok([]);
      }
      var from := currentIndex;
      r := ReadBatch(size);
      if r.Ok? {
        EofMeansEnd();
        if |r.value| == size {
          UpdateRowMap();
        }
        if stream.eof {
          totalRows := Some(currentIndex);
        }
      }
    }

    /** Any history of calls, up to the first that throws on a row: each answer is that of a plain
        list of the rows with a cursor. */
    method Replay(calls: seq<Call>) returns (answers: seq<Answer>, ghost at: seq<nat>)
      requires Valid()
      modifies this`currentIndex, this`totalRows, this`rowsMap, stream
      ensures |answers| <= |calls| && |at| == |answers| + 1 && at[0] == old(currentIndex)
      ensures Explained(Rows(), calls, answers, at)
      ensures |answers| == |calls| ==> Valid() && currentIndex == at[|calls|]
      ensures |answers| < |calls| ==>
                && calls[|answers|].Next?
                && exists k | at[|answers|] <= k < BatchEnd(at[|answers|], calls[|answers|].size) :: !Good(k)
    {
      hide Lines, Offset, Explained;
      answers, at := [], [currentIndex];
      NothingExplained(Rows(), calls, at);
      while |answers| < |calls|
        invariant Valid() && |answers| <= |calls| && |at| == |answers| + 1
        invariant at[0] == old(currentIndex) && currentIndex == at[|answers|]
        invariant Explained(Rows(), calls, answers, at)
      {
        var answer;
        match calls[|answers|] {
          case Next(size) =>
            var r := NextRow(size);
            if r.Err? {
              return;
            }
            answer := Batch(r.value);
          case Seek(index) =>
            var r := Seek(index);
            answer := if r.Ok? then Moved else Refused;
        }
        ExplainedMore(Rows(), calls, answers, at, answer, currentIndex);
        at := at + [currentIndex];
        answers := answers + [answer];
      }
    }
  }

  // ---- Histories ----

  datatype Call = Next(size: nat) | Seek(index: nat)

  datatype Answer = Batch(rows: seq<string>) | Moved | Refused

  /** What a list with a cursor answers. Only seeking to the very end may go either way, and only a
      refused seek may leave the cursor where it was or move it to the end. */
  predicate Explains(rows: seq<string>, call: Call, answer: Answer, from: nat, to: nat) {
    && from <= |rows| && to <= |rows|
    && match (call, answer)
       case (Next(size), Batch(batch)) =>
         to == (if from + size < |rows| then from + size else |rows|) && from <= to && batch == rows[from..to]
       case (Seek(index), Moved) => to == index
       case (Seek(index), Refused) => index >= |rows| && (to == from || to == |rows|)
       case _ => false
  }

  predicate Explained(rows: seq<string>, calls: seq<Call>, answers: seq<Answer>, at: seq<nat>) {
    && |answers| <= |calls| && |at| == |answers| + 1
    && forall j | 0 <= j < |answers| :: Explains(rows, calls[j], answers[j], at[j], at[j + 1])
  }

  lemma NothingExplained(rows: seq<string>, calls: seq<Call>, at: seq<nat>)
    requires |at| == 1
    ensures Explained(rows, calls, [], at)
  {
  }

  lemma ExplainedMore(rows: seq<string>, calls: seq<Call>, answers: seq<Answer>, at: seq<nat>, answer: Answer, to: nat)
    requires Explained(rows, calls, answers, at) && |answers| < |calls|
    requires Explains(rows, calls[|answers|], answer, at[|answers|], to)
    ensures Explained(rows, calls, answers + [answer], at + [to])
  {
    hide Explains;
  }

  function Sizes(calls: seq<Call>): nat {
    if |calls| == 0 then 0 else Sizes(calls[..|calls| - 1]) + (match calls[|calls| - 1] case Next(size) => size case _ => 0)
  }

  function Batches(answers: seq<Answer>): seq<string> {
    if |answers| == 0 then []
    else Batches(answers[..|answers| - 1]) + (match answers[|answers| - 1] case Batch(rows) => rows case _ => [])
  }

  /** After a successful Seek(i), successive batches give row after row from i on: together they are
      rows i to min(i + k, total), k being the sum of their sizes. */
  lemma {:induction false} SeekThenNext(rows: seq<string>, calls: seq<Call>, answers: seq<Answer>, at: seq<nat>,
                                        s: nat, e: nat)
    requires Explained(rows, calls, answers, at) && s < e <= |answers|
    requires calls[s].Seek? && answers[s].Moved? && forall j | s < j < e :: calls[j].Next?
    ensures var i, k := calls[s].index, Sizes(calls[s + 1..e]);
            && i <= |rows| && at[e] == (if i + k < |rows| then i + k else |rows|)
            && Batches(answers[s + 1..e]) == rows[i..at[e]]
  {
    hide Explains, Sizes, Batches;
    if e == s + 1 {
      AnswerOfSeek(rows, calls[s], answers[s], at[s], at[s + 1]);
      assert calls[s + 1..e] == [] && answers[s + 1..e] == [];
      NoBatches();
    } else {
      SeekThenNext(rows, calls, answers, at, s, e - 1);
      AnswerOfNext(rows, calls[e - 1], answers[e - 1], at[e - 1], at[e]);
      BatchesMore(calls, answers, s + 1, e - 1);
      var i := calls[s].index;
      assert rows[i..at[e - 1]] + rows[at[e - 1]..at[e]] == rows[i..at[e]];
    }
  }

  lemma AnswerOfSeek(rows: seq<string>, call: Call, answer: Answer, from: nat, to: nat)
    requires Explains(rows, call, answer, from, to) && call.Seek? && answer.Moved?
    ensures to == call.index <= |rows|
  {
  }

  lemma AnswerOfNext(rows: seq<string>, call: Call, answer: Answer, from: nat, to: nat)
    requires Explains(rows, call, answer, from, to) && call.Next?
    ensures answer.Batch? && from <= to <= |rows| && answer.rows == rows[from..to]
    ensures to == if from + call.size < |rows| then from + call.size else |rows|
  {
  }

  lemma NoBatches()
    ensures Sizes([]) == 0 && Batches([]) == []
  {
  }

  lemma BatchesMore(calls: seq<Call>, answers: seq<Answer>, from: nat, to: nat)
    requires from <= to < |calls| && to < |answers| && calls[to].Next? && answers[to].Batch?
    ensures Sizes(calls[from..to + 1]) == Sizes(calls[from..to]) + calls[to].size
    ensures Batches(answers[from..to + 1]) == Batches(answers[from..to]) + answers[to].rows
  {
    assert calls[from..to + 1][..to - from] == calls[from..to];
    assert answers[from..to + 1][..to - from] == answers[from..to];
  }
}
