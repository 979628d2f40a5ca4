/**
  The sequential recovery search, as a function of the lattice state.

  A block without data is marked pending, downloaded if the store has it, and otherwise rebuilt from the
  first recover pair whose two blocks can be obtained by the same search with one unit of depth less.
  Blocks on the way stay pending until the search leaves them, and everything obtained is kept.
 */
module RecoverySearch {
  import opened Bytes
  import opened LatticeGraph
  import opened Sequences

  datatype Status = NoData | DataAvailable | RepairPending

  /** The mutable part of a block. */
  datatype Cell = Cell(status: Status, data: Chunk, repaired: bool, request: nat)

  type State = map<Node, Cell>

  /** What can be downloaded, and with what content. */
  type Store = map<Node, Chunk>

  /** Data, or the error that there is none. */
  datatype Answer = Failed | Got(data: Chunk)

  ghost predicate Covers(g: Graph, st: State) {
    forall b :: In(g, b) ==> b in st
  }

  // ----- single blocks

  predicate Available(c: Cell) {
    c.status == DataAvailable
  }

  function Started(c: Cell, rid: nat): Cell {
    c.(status := RepairPending, request := rid)
  }

  function WithData(c: Cell, data: Chunk, repaired: bool): Cell {
    if c.status == DataAvailable then c else c.(status := DataAvailable, data := data, repaired := repaired)
  }

  function Finished(c: Cell, success: bool): Cell {
    if c.status == RepairPending then c.(status := if success then DataAvailable else NoData) else c
  }

  // ----- the search

  /** Tries to obtain block b within depth. */
  function Search(g: Graph, store: Store, st: State, b: Node, rid: nat, depth: nat): (st': State)
    requires g.Valid() && Covers(g, st) && In(g, b) && depth >= 1
    ensures Covers(g, st')
    decreases depth, 0, 0
  {
    if st[b].status != NoData then st
    else
      var st1 := st[b := Started(st[b], rid)];
      if b in store then
        st1[b := Finished(WithData(st1[b], store[b], false), true)]
      else
        var (st2, success) := Repair(g, store, st1, b, rid, depth - 1);
        st2[b := Finished(st2[b], success)]
  }

  function Repair(g: Graph, store: Store, st: State, b: Node, rid: nat, depth: nat): (r: (State, bool))
    requires g.Valid() && Covers(g, st) && In(g, b)
    ensures Covers(g, r.0)
    decreases depth, 2, 0
  {
    if depth == 0 then (st, false) else TryPairs(g, store, st, b, rid, depth, 0)
  }

  /** Tries the recover pairs from number j on, until one yields the block. */
  function TryPairs(g: Graph, store: Store, st: State, b: Node, rid: nat, depth: nat, j: nat): (r: (State, bool))
    requires g.Valid() && Covers(g, st) && In(g, b) && depth >= 1 && j <= |Pairs(g, b)|
    ensures Covers(g, r.0)
    decreases depth, 1, |Pairs(g, b)| - j
  {
    if j == |Pairs(g, b)| then (st, false)
    else
      var p := Pairs(g, b)[j];
      var st1 := Search(g, store, st, p.left, rid, depth);
      if !Available(st1[p.left]) then TryPairs(g, store, st1, b, rid, depth, j + 1)
      else
        var st2 := Search(g, store, st1, p.right, rid, depth);
        if !Available(st2[p.right]) then TryPairs(g, store, st2, b, rid, depth, j + 1)
        else
          var l, r := st2[p.left].data, st2[p.right].data;
          if l == [] || r == [] then TryPairs(g, store, st2, b, rid, depth, j + 1)
          else (st2[b := WithData(st2[b], Xor(l, r), true)], true)
  }

  // ----- request discipline

  /** Data is never lost or changed, pending blocks stay exactly as they are, and no block is left pending. */
  ghost predicate Grows(g: Graph, st: State, st': State)
    requires Covers(g, st) && Covers(g, st')
  {
    forall b :: In(g, b) ==>
      if st[b].status == NoData then st'[b].status != RepairPending else st'[b] == st[b]
  }

  lemma {:induction false} SearchGrows(g: Graph, store: Store, st: State, b: Node, rid: nat, depth: nat)
    requires g.Valid() && Covers(g, st) && In(g, b) && depth >= 1
    ensures Grows(g, st, Search(g, store, st, b, rid, depth))
    decreases depth, 0, 0
  {
    hide Pairs, TryPairs;
    if st[b].status == NoData && b !in store && depth > 1 {
      var st1 := st[b := Started(st[b], rid)];
      TryPairsGrows(g, store, st1, b, rid, depth - 1, 0);
    }
  }

  /** While b is pending: on failure only other blocks have changed, on success b has been given data. */
  lemma {:induction false} TryPairsGrows(g: Graph, store: Store, st: State, b: Node, rid: nat, depth: nat, j: nat)
    requires g.Valid() && Covers(g, st) && In(g, b) && depth >= 1 && j <= |Pairs(g, b)|
    requires st[b].status == RepairPending
    ensures var (st', ok) := TryPairs(g, store, st, b, rid, depth, j);
            if ok then Available(st'[b]) && Grows(g, st, st'[b := st[b]]) else Grows(g, st, st')
    decreases depth, 1, |Pairs(g, b)| - j
  {
    hide Pairs, Search;
    if j < |Pairs(g, b)| {
      var p := Pairs(g, b)[j];
      var st1 := Search(g, store, st, p.left, rid, depth);
      SearchGrows(g, store, st, p.left, rid, depth);
      if !Available(st1[p.left]) {
        TryPairsGrows(g, store, st1, b, rid, depth, j + 1);
      } else {
        var st2 := Search(g, store, st1, p.right, rid, depth);
        SearchGrows(g, store, st1, p.right, rid, depth);
        if !Available(st2[p.right]) || st2[p.left].data == [] || st2[p.right].data == [] {
          TryPairsGrows(g, store, st2, b, rid, depth, j + 1);
        }
      }
    }
  }

  /** Every pending block belongs to request rid, so marking a block never waits for another request. */
  ghost predicate Owned(g: Graph, st: State, rid: nat)
    requires Covers(g, st)
  {
    forall b :: In(g, b) && st[b].status == RepairPending ==> st[b].request == rid
  }

  ghost predicate Quiet(g: Graph, st: State)
    requires Covers(g, st)
  {
    forall b :: In(g, b) ==> st[b].status != RepairPending
  }

  lemma EndsQuiet(g: Graph, store: Store, st: State, b: Node, rid: nat, depth: nat)
    requires g.Valid() && Covers(g, st) && In(g, b) && depth >= 1 && Quiet(g, st)
    ensures Owned(g, st, rid) && Quiet(g, Search(g, store, st, b, rid, depth))
  {
    hide Search;
    SearchGrows(g, store, st, b, rid, depth);
  }

  // ----- the calls of one request

  /** One call of the search: where it starts, with what depth left, and the blocks whose search called it. */
  datatype Call = Call(block: Node, before: State, depth: nat, stack: seq<Node>)

  /** All calls of the search that obtaining block b makes, itself first. */
  function Calls(g: Graph, store: Store, st: State, b: Node, rid: nat, depth: nat, stack: seq<Node>): seq<Call>
    requires g.Valid() && Covers(g, st) && In(g, b) && depth >= 1
    decreases depth, 0, 0
  {
    [Call(b, st, depth, stack)]
    + if st[b].status != NoData || b in store || depth == 1 then []
      else PairCalls(g, store, st[b := Started(st[b], rid)], b, rid, depth - 1, 0, stack + [b])
  }

  /** The calls made for the recover pairs of block b from number j on. */
  function PairCalls(g: Graph, store: Store, st: State, b: Node, rid: nat, depth: nat, j: nat, stack: seq<Node>): seq<Call>
    requires g.Valid() && Covers(g, st) && In(g, b) && depth >= 1 && j <= |Pairs(g, b)|
    decreases depth, 1, |Pairs(g, b)| - j
  {
    if j == |Pairs(g, b)| then []
    else
      var p := Pairs(g, b)[j];
      var st1 := Search(g, store, st, p.left, rid, depth);
      Calls(g, store, st, p.left, rid, depth, stack)
      + if !Available(st1[p.left]) then PairCalls(g, store, st1, b, rid, depth, j + 1, stack)
        else
          var st2 := Search(g, store, st1, p.right, rid, depth);
          Calls(g, store, st1, p.right, rid, depth, stack)
          + if !Available(st2[p.right]) || st2[p.left].data == [] || st2[p.right].data == []
            then PairCalls(g, store, st2, b, rid, depth, j + 1, stack) else []
  }

  /** The pending blocks are those of the stack, each there once, and all carry request rid. */
  ghost predicate OnStack(g: Graph, st: State, rid: nat, stack: seq<Node>)
    requires Covers(g, st)
  {
    && Owned(g, st, rid) && NoRepeat(stack)
    && (forall x :: x in stack ==> In(g, x))
    && forall b :: In(g, b) ==> (st[b].status == RepairPending <==> b in stack)
  }

  /** What holds at every call: the stack is the pending blocks, and each call on it has used one unit of depth. */
  ghost predicate Disciplined(g: Graph, rid: nat, total: nat, c: Call) {
    && In(g, c.block) && Covers(g, c.before) && OnStack(g, c.before, rid, c.stack)
    && c.depth >= 1 && |c.stack| + c.depth == total
  }

  ghost predicate AllDisciplined(g: Graph, rid: nat, total: nat, calls: seq<Call>) {
    forall x :: 0 <= x < |calls| ==> Disciplined(g, rid, total, calls[x])
  }

  lemma GrowsOnStack(g: Graph, st: State, st': State, rid: nat, stack: seq<Node>)
    requires Covers(g, st) && Covers(g, st') && Grows(g, st, st') && OnStack(g, st, rid, stack)
    ensures OnStack(g, st', rid, stack)
  {
  }

  lemma StartedOnStack(g: Graph, st: State, b: Node, rid: nat, stack: seq<Node>)
    requires Covers(g, st) && In(g, b) && st[b].status == NoData && OnStack(g, st, rid, stack)
    ensures OnStack(g, st[b := Started(st[b], rid)], rid, stack + [b])
  {
  }

  lemma {:induction false} CallsDisciplined(g: Graph, store: Store, st: State, b: Node, rid: nat, depth: nat, stack: seq<Node>)
    requires g.Valid() && Covers(g, st) && In(g, b) && depth >= 1 && OnStack(g, st, rid, stack)
    ensures AllDisciplined(g, rid, |stack| + depth, Calls(g, store, st, b, rid, depth, stack))
    decreases depth, 0, 0
  {
    hide Pairs, PairCalls, OnStack;
    if st[b].status == NoData && b !in store && depth > 1 {
      StartedOnStack(g, st, b, rid, stack);
      PairCallsDisciplined(g, store, st[b := Started(st[b], rid)], b, rid, depth - 1, 0, stack + [b]);
    }
  }

  lemma {:induction false} PairCallsDisciplined(g: Graph, store: Store, st: State, b: Node, rid: nat, depth: nat, j: nat, stack: seq<Node>)
    requires g.Valid() && Covers(g, st) && In(g, b) && depth >= 1 && j <= |Pairs(g, b)| && OnStack(g, st, rid, stack)
    ensures AllDisciplined(g, rid, |stack| + depth, PairCalls(g, store, st, b, rid, depth, j, stack))
    decreases depth, 1, |Pairs(g, b)| - j
  {
    hide Pairs, Search, Calls, OnStack, Disciplined, Grows;
    if j < |Pairs(g, b)| {
      var p := Pairs(g, b)[j];
      var st1 := Search(g, store, st, p.left, rid, depth);
      CallsDisciplined(g, store, st, p.left, rid, depth, stack);
      SearchGrows(g, store, st, p.left, rid, depth);
      GrowsOnStack(g, st, st1, rid, stack);
      if !Available(st1[p.left]) {
        PairCallsDisciplined(g, store, st1, b, rid, depth, j + 1, stack);
      } else {
        var st2 := Search(g, store, st1, p.right, rid, depth);
        CallsDisciplined(g, store, st1, p.right, rid, depth, stack);
        SearchGrows(g, store, st1, p.right, rid, depth);
        GrowsOnStack(g, st1, st2, rid, stack);
        if !Available(st2[p.right]) || st2[p.left].data == [] || st2[p.right].data == [] {
          PairCallsDisciplined(g, store, st2, b, rid, depth, j + 1, stack);
        }
      }
    }
  }

  /**
    A whole request: nothing is pending when it starts and nothing when it ends, whatever its id; at each of
    its calls the pending blocks are exactly the call stack and belong to the request, so no call waits, and
    the stack is shorter than the depth the request was made with.
   */
  lemma SearchQuiet(g: Graph, store: Store, st: State, b: Node, rid: nat, depth: nat)
    requires g.Valid() && Covers(g, st) && In(g, b) && depth >= 1 && Quiet(g, st)
    ensures Quiet(g, Search(g, store, st, b, rid, depth))
    ensures AllDisciplined(g, rid, depth, Calls(g, store, st, b, rid, depth, []))
    ensures Calls(g, store, st, b, rid, depth, [])[0] == Call(b, st, depth, [])
  {
    hide Search, PairCalls;
    EndsQuiet(g, store, st, b, rid, depth);
    CallsDisciplined(g, store, st, b, rid, depth, []);
  }

  // ----- the lattice before any request

  function Nodes(g: Graph): (ns: set<Node>)
    ensures forall b :: b in ns <==> In(g, b)
  {
    (set i | 1 <= i <= g.n :: D(i)) + (set k, i | 0 <= k < g.alpha && 1 <= i <= g.n :: P(k, i))
  }

  /** Nothing held, nothing pending. */
  ghost predicate Fresh(g: Graph, st: State) {
    Covers(g, st) && forall b :: In(g, b) ==> st[b].status == NoData
  }

  function FreshState(g: Graph): (st: State)
    ensures Fresh(g, st)
  {
    map b | b in Nodes(g) :: Cell(NoData, [], false, 0)
  }
}
