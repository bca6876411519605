/** The per-timestep action queue over predicted chunks, and the policy that refills it. */
module ActionQueues {
  import opened Outcomes
  import opened NestedLists

  /** An element of a chunk as `float(x)` sees it: text that reads as a number is one. */
  datatype Cell = Finite(value: real) | NonFinite | NotNumeric

  type Chunk = Nested<Cell>
  type Row = seq<real>

  datatype QueueError = NotASequence | BadRow | RaggedChunk | NonFiniteRow | Exhausted

  // ---------------------------------------------------------------- what a chunk is

  predicate IsFiniteRow(row: seq<Nested<Cell>>) {
    forall i :: 0 <= i < |row| ==> row[i].Leaf? && row[i].value.Finite?
  }

  function RowValues(row: seq<Nested<Cell>>): Row
    requires IsFiniteRow(row)
  {
    seq(|row|, i requires 0 <= i < |row| => row[i].value.value)
  }

  /** A chunk `[H, A]`, a single action `[A]` being wrapped as one row. */
  function Rows(chunk: Chunk): seq<Chunk>
    requires chunk.List? && chunk.items != []
  {
    if chunk.items[0].Leaf? then [chunk] else chunk.items
  }

  /** Non-empty, rectangular and finite: the chunks the queue accepts. */
  predicate WellFormed(chunk: Chunk) {
    && chunk.List? && chunk.items != []
    && var rows := Rows(chunk);
       forall i :: 0 <= i < |rows| ==>
         rows[i].List? && rows[i].items != [] && |rows[i].items| == |rows[0].items| && IsFiniteRow(rows[i].items)
  }

  /** The per-timestep actions of an accepted chunk. */
  function Actions(chunk: Chunk): (r: seq<Row>)
    requires WellFormed(chunk)
    ensures |r| == |Rows(chunk)| > 0
  {
    var rows := Rows(chunk);
    seq(|rows|, i requires 0 <= i < |rows| => RowValues(rows[i].items))
  }

  /** The loader's complaint, in its order of checking; `None` for an accepted chunk. */
  function LoadError(chunk: Chunk): Option<QueueError> {
    if chunk.Leaf? || chunk.items == [] then Some(NotASequence) else RowsError(Rows(chunk), 0)
  }

  function RowsError(rows: seq<Chunk>, i: nat): Option<QueueError>
    requires i <= |rows| && (i > 0 ==> rows[0].List?)
    decreases |rows| - i
  {
    if i == |rows| then None
    else if rows[i].Leaf? || rows[i].items == [] then Some(BadRow)
    else if i > 0 && |rows[i].items| != |rows[0].items| then Some(RaggedChunk)
    else if !IsFiniteRow(rows[i].items) then Some(NonFiniteRow)
    else RowsError(rows, i + 1)
  }

  lemma {:induction false} RowsErrorMeaning(rows: seq<Chunk>, i: nat)
    requires rows != [] && i <= |rows| && (i > 0 ==> rows[0].List?)
    ensures RowsError(rows, i).None? <==>
            forall j :: i <= j < |rows| ==>
              && rows[j].List? && rows[j].items != [] && rows[0].List?
              && |rows[j].items| == |rows[0].items| && IsFiniteRow(rows[j].items)
    decreases |rows| - i
  {
    if i == |rows| || rows[i].Leaf? {
    } else {
      RowsErrorMeaning(rows, i + 1);
    }
  }

  /** The row holds the numbers of the cells, in their order. */
  predicate IsRowOf(row: Row, cells: seq<Chunk>) {
    |row| == |cells| && forall j :: 0 <= j < |cells| ==> cells[j] == Leaf(Finite(row[j]))
  }

  /** The actions that a chunk is: the chunk itself as a single one, or its rows in their order;
      there is at least one, and all have one width, which is not zero. */
  predicate IsChunkOf(chunk: Chunk, rows: seq<Row>) {
    && chunk.List? && rows != [] && rows[0] != []
    && (forall i :: 0 <= i < |rows| ==> |rows[i]| == |rows[0]|)
    && if chunk.items != [] && chunk.items[0].Leaf? then |rows| == 1 && IsRowOf(rows[0], chunk.items)
       else |rows| == |chunk.items|
            && forall i :: 0 <= i < |rows| ==> chunk.items[i].List? && IsRowOf(rows[i], chunk.items[i].items)
  }

  /** The well-formed chunks are those that are some actions, and their actions are the only ones
      they are. */
  lemma ActionsMeaning(chunk: Chunk, rows: seq<Row>)
    ensures IsChunkOf(chunk, rows) <==> WellFormed(chunk) && rows == Actions(chunk)
  {
    if WellFormed(chunk) {
      assert IsChunkOf(chunk, Actions(chunk));
      if IsChunkOf(chunk, rows) {
        assert forall i :: 0 <= i < |rows| ==> rows[i] == Actions(chunk)[i];
      }
    } else if IsChunkOf(chunk, rows) {
      assert chunk.items != [] by {
        assert |rows[0]| > 0;
      }
      assert forall i :: 0 <= i < |Rows(chunk)| ==> Rows(chunk)[i].List? && IsRowOf(rows[i], Rows(chunk)[i].items);
      assert false;
    }
  }

  lemma ActionsOnly(chunk: Chunk)
    ensures WellFormed(chunk) ==> IsChunkOf(chunk, Actions(chunk))
    ensures !WellFormed(chunk) ==> forall rows :: !IsChunkOf(chunk, rows)
  {
    forall rows
      ensures IsChunkOf(chunk, rows) <==> WellFormed(chunk) && rows == Actions(chunk)
    {
      ActionsMeaning(chunk, rows);
    }
  }

  /** The loader complains exactly about the chunks that are not well formed. */
  lemma LoadErrorMeaning(chunk: Chunk)
    ensures LoadError(chunk).None? <==> WellFormed(chunk)
  {
    if chunk.List? && chunk.items != [] {
      RowsErrorMeaning(Rows(chunk), 0);
    }
  }

  // ---------------------------------------------------------------- the queue

  class ActionQueue {
    var q: seq<Row>

    constructor ()
      ensures q == []
    {
      q := [];
    }

    /** Appends the actions of a well-formed chunk; rejects any other and stays as it was. */
    method LoadChunk(chunk: Chunk) returns (r: Option<QueueError>)
      modifies this
      ensures r == LoadError(chunk) && (r.None? <==> WellFormed(chunk))
      ensures q == if WellFormed(chunk) then old(q) + Actions(chunk) else old(q)
      ensures r.None? <==> exists rows :: IsChunkOf(chunk, rows)
      ensures r.None? ==> old(q) <= q && IsChunkOf(chunk, q[|old(q)|..])
    {
      LoadErrorMeaning(chunk);
      ActionsOnly(chunk);
      if chunk.Leaf? || chunk.items == [] {
        return Some(NotASequence);
      }
      var source := Rows(chunk);
      var width: Option<nat> := None;
      var rows: seq<Row> := [];
      for i := 0 to |source|
        invariant q == old(q) && |rows| == i
        invariant i == 0 <==> width.None?
        invariant (i > 0 ==> source[0].List?) && RowsError(source, i) == LoadError(chunk)
        invariant i > 0 ==> width == Some(|source[0].items|)
        invariant forall j :: 0 <= j < i ==>
                    && source[j].List? && source[j].items != [] && |source[j].items| == |source[0].items|
                    && IsFiniteRow(source[j].items) && rows[j] == RowValues(source[j].items)
      {
        var r := source[i];
        if r.Leaf? || r.items == [] {
          return Some(BadRow);
        }
        if width.None? {
          width := Some(|r.items|);
        } else if |r.items| != width.value {
          return Some(RaggedChunk);
        }
        if !IsFiniteRow(r.items) {
          return Some(NonFiniteRow);
        }
        rows := rows + [RowValues(r.items)];
      }
      assert rows == Actions(chunk);
      q := q + rows;
      assert q[|old(q)|..] == Actions(chunk);
      return None;
    }

    method PopNext() returns (r: Result<Row, QueueError>)
      modifies this
      ensures if old(q) == [] then r == Failure(Exhausted) && q == []
              else r == Success(old(q)[0]) && q == old(q)[1..]
    {
      if q == [] {
        return Failure(Exhausted);
      }
      r := Success(q[0]);
      q := q[1..];
    }

    method Reset()
      modifies this
      ensures q == []
    {
      q := [];
    }
  }

  // ---------------------------------------------------------------- the policy's selector

  /** The queue, and how many chunks have been predicted so far. */
  datatype PolicyState = PolicyState(queue: seq<Row>, predictions: nat)

  /** One `select_next_action`: `predicted(k)` is the k-th chunk the runner would answer. */
  function Select(s: PolicyState, predicted: nat -> Chunk): (PolicyState, Result<Row, QueueError>) {
    if s.queue != [] then (s.(queue := s.queue[1..]), Success(s.queue[0]))
    else
      var chunk := predicted(s.predictions);
      var after := s.predictions + 1;
      if LoadError(chunk).Some? then (PolicyState([], after), Failure(LoadError(chunk).value))
      else
        LoadErrorMeaning(chunk);
        (PolicyState(Actions(chunk)[1..], after), Success(Actions(chunk)[0]))
  }

  class Policy {
    const queue: ActionQueue
    ghost var predictions: nat

    constructor ()
      ensures fresh(queue) && State() == PolicyState([], 0)
    {
      queue := new ActionQueue();
      predictions := 0;
    }

    ghost function State(): PolicyState
      reads this, queue
    {
      PolicyState(queue.q, predictions)
    }

    /** `fresh_` is what the runner answers if it is asked. */
    method SelectNextAction(fresh_: Chunk, ghost predicted: nat -> Chunk) returns (r: Result<Row, QueueError>)
      requires fresh_ == predicted(predictions)
      modifies this, queue
      ensures State() == Select(old(State()), predicted).0
      ensures r == Select(old(State()), predicted).1
    {
      if queue.q == [] {
        predictions := predictions + 1;
        var rejected := queue.LoadChunk(fresh_);
        if rejected.Some? {
          return Failure(rejected.value);
        }
      }
      r := queue.PopNext();
    }

    method Reset()
      modifies queue
      ensures State() == PolicyState([], old(predictions))
    {
      queue.Reset();
    }
  }

  // ---------------------------------------------------------------- n selections

  /** `n` selections in a row, stopping at the first failure. */
  function SelectMany(s: PolicyState, predicted: nat -> Chunk, n: nat): (PolicyState, Result<seq<Row>, QueueError>)
  {
    if n == 0 then (s, Success([]))
    else
      var (s1, rows) := SelectMany(s, predicted, n - 1);
      if rows.Failure? then (s1, rows)
      else
        var (s2, row) := Select(s1, predicted);
        if row.Failure? then (s2, Failure(row.error)) else (s2, Success(rows.value + [row.value]))
  }

  /** What a chunk adds to the queue: nothing, if it is rejected. */
  function Accepted(chunk: Chunk): seq<Row> {
    if WellFormed(chunk) then Actions(chunk) else []
  }

  /** The actions of the chunks predicted from the `p`-th up to the `k`-th, in order. */
  function Concatenated(predicted: nat -> Chunk, p: nat, k: nat): seq<Row> {
    if k <= p then [] else Concatenated(predicted, p, k - 1) + Accepted(predicted(k - 1))
  }

  /** How many of them are rejected. */
  function Rejected(predicted: nat -> Chunk, p: nat, k: nat): nat {
    if k <= p then 0 else Rejected(predicted, p, k - 1) + if WellFormed(predicted(k - 1)) then 0 else 1
  }

  lemma {:induction false} RejectedMeaning(predicted: nat -> Chunk, p: nat, k: nat)
    ensures Rejected(predicted, p, k) == 0 <==> forall i :: p <= i < k ==> WellFormed(predicted(i))
  {
    if k <= p {
    } else {
      RejectedMeaning(predicted, p, k - 1);
    }
  }

  /** `n` calls in a row, going on after failures: the final state and the actions returned. */
  function Calls(s: PolicyState, predicted: nat -> Chunk, n: nat): (PolicyState, seq<Row>) {
    if n == 0 then (s, [])
    else
      var (s1, rows) := Calls(s, predicted, n - 1);
      var (s2, row) := Select(s1, predicted);
      (s2, Extended(rows, row))
  }

  /** What `n` calls since a reset at the `p`-th prediction have come to: the actions returned
      and those queued are together the accepted chunks, the other calls are the rejected ones,
      and one prediction fewer would not have done. */
  ghost predicate Follows(s: PolicyState, rows: seq<Row>, predicted: nat -> Chunk, p: nat, n: nat) {
    && p <= s.predictions
    && rows + s.queue == Concatenated(predicted, p, s.predictions)
    && n == |rows| + Rejected(predicted, p, s.predictions)
    && (s.predictions > p ==>
          |Concatenated(predicted, p, s.predictions - 1)| + Rejected(predicted, p, s.predictions - 1) < n)
  }

  lemma MoveOne(rows: seq<Row>, queue: seq<Row>)
    requires queue != []
    ensures rows + queue == (rows + [queue[0]]) + queue[1..]
  {
  }

  lemma FollowsPop(s: PolicyState, rows: seq<Row>, predicted: nat -> Chunk, p: nat, n: nat)
    requires Follows(s, rows, predicted, p, n) && s.queue != []
    ensures Follows(s.(queue := s.queue[1..]), rows + [s.queue[0]], predicted, p, n + 1)
  {
    MoveOne(rows, s.queue);
  }

  lemma FollowsRefill(s: PolicyState, rows: seq<Row>, predicted: nat -> Chunk, p: nat, n: nat)
    requires Follows(s, rows, predicted, p, n) && s.queue == []
    ensures var chunk, after := predicted(s.predictions), s.predictions + 1;
            if WellFormed(chunk) then
              Follows(PolicyState(Actions(chunk)[1..], after), rows + [Actions(chunk)[0]], predicted, p, n + 1)
            else Follows(PolicyState([], after), rows, predicted, p, n + 1)
  {
    var chunk, after := predicted(s.predictions), s.predictions + 1;
    var all := Concatenated(predicted, p, s.predictions);
    assert rows == all by { assert rows + s.queue == rows; }
    assert Concatenated(predicted, p, after) == all + Accepted(chunk);
    if WellFormed(chunk) {
      MoveOne(rows, Actions(chunk));
    } else {
      assert all + Accepted(chunk) == rows + [];
    }
  }

  lemma SelectMeaning(s: PolicyState, predicted: nat -> Chunk)
    ensures s.queue != [] ==> Select(s, predicted) == (s.(queue := s.queue[1..]), Success(s.queue[0]))
    ensures s.queue == [] && WellFormed(predicted(s.predictions)) ==>
              var rows := Actions(predicted(s.predictions));
              Select(s, predicted) == (PolicyState(rows[1..], s.predictions + 1), Success(rows[0]))
    ensures s.queue == [] && !WellFormed(predicted(s.predictions)) ==>
              Select(s, predicted).0 == PolicyState([], s.predictions + 1) && Select(s, predicted).1.Failure?
  {
    LoadErrorMeaning(predicted(s.predictions));
  }

  /** The actions returned so far, after one more selection. */
  function Extended(rows: seq<Row>, row: Result<Row, QueueError>): seq<Row> {
    if row.Success? then rows + [row.value] else rows
  }

  lemma FollowsStep(s: PolicyState, rows: seq<Row>, predicted: nat -> Chunk, p: nat, n: nat)
    requires Follows(s, rows, predicted, p, n)
    ensures Follows(Select(s, predicted).0, Extended(rows, Select(s, predicted).1), predicted, p, n + 1)
  {
    SelectMeaning(s, predicted);
    if s.queue == [] {
      FollowsRefill(s, rows, predicted, p, n);
    } else {
      FollowsPop(s, rows, predicted, p, n);
    }
  }

  /** Any number of calls since a reset, whatever the chunks: the rejected ones cost one failing
      call each and nothing else. */
  lemma {:induction false} CallsFollowChunks(predicted: nat -> Chunk, p: nat, n: nat)
    ensures Follows(Calls(PolicyState([], p), predicted, n).0, Calls(PolicyState([], p), predicted, n).1, predicted, p, n)
  {
    if n == 0 {
    } else {
      CallsFollowChunks(predicted, p, n - 1);
      var (s, rows) := Calls(PolicyState([], p), predicted, n - 1);
      FollowsStep(s, rows, predicted, p, n - 1);
    }
  }

  /** Selections up to the first failure are such calls. */
  lemma {:induction false} SelectionsAreCalls(s: PolicyState, predicted: nat -> Chunk, n: nat) returns (m: nat)
    ensures var (t, r) := SelectMany(s, predicted, n);
            if r.Success? then Calls(s, predicted, n) == (t, r.value) && m == n == |r.value|
            else m < n && Calls(s, predicted, m + 1).0 == t && |Calls(s, predicted, m + 1).1| == m
  {
    m := n;
    if n > 0 {
      m := SelectionsAreCalls(s, predicted, n - 1);
      var (s1, rows) := SelectMany(s, predicted, n - 1);
      if rows.Success? {
        var (s2, row) := Select(s1, predicted);
        assert Calls(s, predicted, n) == (s2, Extended(rows.value, row));
        m := if row.Success? then n else n - 1;
      }
    }
  }

  /** From a reset queue, `n` successful selections return exactly the first `n` actions of the
      concatenated chunks, all those predicted being well formed, and the queue keeps the rest. */
  lemma SelectionsFollowChunks(predicted: nat -> Chunk, p: nat, n: nat)
    requires SelectMany(PolicyState([], p), predicted, n).1.Success?
    ensures var (s, r) := SelectMany(PolicyState([], p), predicted, n);
            var all := Concatenated(predicted, p, s.predictions);
            && p <= s.predictions && n <= |all| && r.value == all[..n] && s.queue == all[n..]
            && forall i :: p <= i < s.predictions ==> WellFormed(predicted(i))
  {
    var m := SelectionsAreCalls(PolicyState([], p), predicted, n);
    CallsFollowChunks(predicted, p, n);
    var (s, r) := SelectMany(PolicyState([], p), predicted, n);
    RejectedMeaning(predicted, p, s.predictions);
    var all := Concatenated(predicted, p, s.predictions);
    assert all == r.value + s.queue;
    assert all[..n] == r.value && all[n..] == s.queue;
  }

  lemma {:induction false} ConcatenatedGrows(predicted: nat -> Chunk, p: nat, j: nat, k: nat)
    requires j <= k
    ensures |Concatenated(predicted, p, j)| <= |Concatenated(predicted, p, k)|
    ensures Rejected(predicted, p, j) <= Rejected(predicted, p, k)
    decreases k
  {
    if j >= k {
    } else {
      ConcatenatedGrows(predicted, p, j, k - 1);
    }
  }

  /** The number of predictions of any `n` calls is the least that covers them, a rejected chunk
      covering the call that fails on it. */
  lemma PredictionsAreLeast(predicted: nat -> Chunk, p: nat, n: nat)
    ensures var k := Calls(PolicyState([], p), predicted, n).0.predictions;
            && p <= k && n <= |Concatenated(predicted, p, k)| + Rejected(predicted, p, k)
            && forall j: nat :: p <= j && n <= |Concatenated(predicted, p, j)| + Rejected(predicted, p, j) ==> k <= j
  {
    CallsFollowChunks(predicted, p, n);
    var (s, rows) := Calls(PolicyState([], p), predicted, n);
    assert |rows + s.queue| == |rows| + |s.queue|;
    forall j: nat | p <= j && n <= |Concatenated(predicted, p, j)| + Rejected(predicted, p, j)
      ensures s.predictions <= j
    {
      if j < s.predictions {
        ConcatenatedGrows(predicted, p, j, s.predictions - 1);
      }
    }
  }

  /** The chunks from the `p`-th on cover `n` actions before any of them is malformed. */
  ghost predicate Covers(predicted: nat -> Chunk, p: nat, n: nat) {
    exists k: nat :: p <= k && n <= |Concatenated(predicted, p, k)| && Rejected(predicted, p, k) == 0
  }

  /** `n` selections succeed exactly when that is so. */
  lemma SelectionsSucceedIff(predicted: nat -> Chunk, p: nat, n: nat)
    ensures SelectMany(PolicyState([], p), predicted, n).1.Success? <==> Covers(predicted, p, n)
  {
    var start := PolicyState([], p);
    var m := SelectionsAreCalls(start, predicted, n);
    var made := if m < n then m + 1 else n;
    CallsFollowChunks(predicted, p, made);
    var (s, rows) := Calls(start, predicted, made);
    if m == n {
      SuccessCovers(s, rows, predicted, p, n);
    } else {
      FailureUncovers(s, rows, predicted, p, n);
    }
  }

  lemma SuccessCovers(s: PolicyState, rows: seq<Row>, predicted: nat -> Chunk, p: nat, n: nat)
    requires Follows(s, rows, predicted, p, n) && |rows| == n
    ensures Covers(predicted, p, n)
  {
    assert |rows + s.queue| == n + |s.queue|;
    assert n <= |Concatenated(predicted, p, s.predictions)| && Rejected(predicted, p, s.predictions) == 0;
  }

  lemma FailureUncovers(s: PolicyState, rows: seq<Row>, predicted: nat -> Chunk, p: nat, n: nat)
    requires |rows| < n && Follows(s, rows, predicted, p, |rows| + 1)
    ensures !Covers(predicted, p, n)
  {
    forall k: nat | p <= k && n <= |Concatenated(predicted, p, k)|
      ensures Rejected(predicted, p, k) != 0
    {
      FailureStopsCoverage(predicted, p, |rows|, s.predictions, k);
    }
  }

  /** When `m` actions and one rejection took `q` predictions, more actions take the rejection too. */
  lemma FailureStopsCoverage(predicted: nat -> Chunk, p: nat, m: nat, q: nat, k: nat)
    requires p <= k && m < |Concatenated(predicted, p, k)|
    requires p < q && Rejected(predicted, p, q) == 1
    requires |Concatenated(predicted, p, q - 1)| + Rejected(predicted, p, q - 1) < m + 1
    ensures Rejected(predicted, p, k) != 0
  {
    if q <= k {
      ConcatenatedGrows(predicted, p, q, k);
    } else {
      ConcatenatedGrows(predicted, p, k, q - 1);
    }
  }

  lemma {:induction false} ConstantHorizonLength(predicted: nat -> Chunk, h: nat, p: nat, k: nat)
    requires p <= k && forall i: nat :: p <= i < k ==> WellFormed(predicted(i)) && |Actions(predicted(i))| == h
    ensures |Concatenated(predicted, p, k)| == (k - p) * h && Rejected(predicted, p, k) == 0
  {
    if k <= p {
    } else {
      ConstantHorizonLength(predicted, h, p, k - 1);
      assert (k - p) * h == (k - 1 - p) * h + h;
    }
  }

  /** With a constant horizon `h`, `n` selections take `ceil(n / h)` predictions. */
  lemma ConstantHorizonPredictions(predicted: nat -> Chunk, h: nat, p: nat, n: nat)
    requires h > 0
    requires forall i: nat :: p <= i < p + (n + h - 1) / h ==> WellFormed(predicted(i)) && |Actions(predicted(i))| == h
    ensures SelectMany(PolicyState([], p), predicted, n).1.Success?
    ensures SelectMany(PolicyState([], p), predicted, n).0.predictions == p + (n + h - 1) / h
  {
    var c := (n + h - 1) / h;
    CeilingCovers(n, h, c);
    ConstantHorizonLength(predicted, h, p, p + c);
    assert Rejected(predicted, p, p + c) == 0 && n <= |Concatenated(predicted, p, p + c)|;
    SelectionsSucceedIff(predicted, p, n);
    var m := SelectionsAreCalls(PolicyState([], p), predicted, n);
    PredictionsAreLeast(predicted, p, n);
    LeastHorizons(predicted, h, p, n, SelectMany(PolicyState([], p), predicted, n).0.predictions, c);
  }

  lemma LeastHorizons(predicted: nat -> Chunk, h: nat, p: nat, n: nat, k: nat, c: nat)
    requires h > 0 && c == (n + h - 1) / h && p <= k <= p + c
    requires forall i: nat :: p <= i < p + c ==> WellFormed(predicted(i)) && |Actions(predicted(i))| == h
    requires n <= |Concatenated(predicted, p, k)| + Rejected(predicted, p, k)
    ensures k == p + c
  {
    ConstantHorizonLength(predicted, h, p, k);
    CeilingCovers(n, h, c);
    if k < p + c {
      AtMostTimes(k - p, c - 1, h);
    }
  }

  /** `ceil(n / h)` horizons cover `n`, and one fewer does not. */
  lemma CeilingCovers(n: nat, h: nat, c: nat)
    requires h > 0 && c == (n + h - 1) / h
    ensures n <= c * h && (c > 0 ==> (c - 1) * h < n)
  {
    assert n + h - 1 == c * h + (n + h - 1) % h;
    assert (c - 1) * h == c * h - h;
  }

  lemma AtMostTimes(a: nat, b: nat, h: nat)
    requires a <= b
    ensures a * h <= b * h
  {
    assert b * h == a * h + (b - a) * h;
  }

  /** A chunk that is not well formed fails the selection that asked for it, and leaves the
      queue as empty as it was. */
  lemma RejectedChunkLeavesQueue(s: PolicyState, predicted: nat -> Chunk)
    ensures Select(s, predicted).1.Failure? <==> s.queue == [] && !WellFormed(predicted(s.predictions))
    ensures Select(s, predicted).1.Failure? ==> Select(s, predicted).0 == PolicyState(s.queue, s.predictions + 1)
  {
    LoadErrorMeaning(predicted(s.predictions));
  }
}
