/** The central port registry: least free port, allocation, release, and the UNIQUE column. */
module PortRegistry {

  const PORT_MIN: nat := 8000
  const PORT_MAX: nat := 9999

  predicate Reserved(p: int) {
    p in {5555, 8000, 3000, 3001, 3002, 3003, 5432, 6379, 7474, 7687, 9378, 11434}
  }

  datatype Status = StatusAllocated | StatusReserved | StatusReleased

  datatype Row = Row(port: int, project: string, status: Status)

  /** Why a call raises: a reserved port is asked for, a port in use is asked for, no port
      is left, or the database refuses a second row for a port. */
  datatype Failure = PortReserved | PortInUse | NoPortLeft | IntegrityError

  datatype Result<T> = Ok(value: T) | Err(failure: Failure)

  predicate InUse(rows: seq<Row>, p: int) {
    exists i :: 0 <= i < |rows| && rows[i].port == p && rows[i].status != StatusReleased
  }

  predicate HasRow(rows: seq<Row>, p: int) {
    exists i :: 0 <= i < |rows| && rows[i].port == p
  }

  predicate Assignable(p: int) { PORT_MIN <= p <= PORT_MAX && !Reserved(p) }

  predicate Free(rows: seq<Row>, p: int) { Assignable(p) && !InUse(rows, p) }

  ghost predicate UniquePorts(rows: seq<Row>) {
    forall i, j :: 0 <= i < j < |rows| ==> rows[i].port != rows[j].port
  }

  /** The first free port at or after p. */
  function NextFree(rows: seq<Row>, p: nat): (r: Result<nat>)
    ensures r.Ok? ==> Free(rows, r.value) && p <= r.value
    ensures forall q :: p <= q && (r.Ok? ==> q < r.value) ==> !Free(rows, q)
    ensures r.Err? ==> r.failure == NoPortLeft
    decreases PORT_MAX + 1 - p
  {
    if p > PORT_MAX then Err(NoPortLeft)
    else if Free(rows, p) then Ok(p)
    else NextFree(rows, p + 1)
  }

  function NextFreePort(rows: seq<Row>): Result<nat> { NextFree(rows, PORT_MIN) }

  /** The row of a port; the column is unique, so it is the only one. */
  function FindRow(rows: seq<Row>, p: int): (i: nat)
    ensures i < |rows| ==> rows[i].port == p
    ensures i <= |rows|
    ensures forall k :: 0 <= k < i ==> rows[k].port != p
  {
    if rows == [] then 0 else if rows[0].port == p then 0 else 1 + FindRow(rows[1..], p)
  }

  /** The commit of a new row: the unique column refuses a port that has a row already. */
  function Commit(rows: seq<Row>, row: Row): (Result<Row>, seq<Row>) {
    if HasRow(rows, row.port) then (Err(IntegrityError), rows) else (Ok(row), rows + [row])
  }

  /** `allocate`; a preferred port of 0 counts as none. */
  function Allocate(rows: seq<Row>, project: string, preferred: int): (Result<Row>, seq<Row>) {
    if preferred != 0 then
      if Reserved(preferred) then (Err(PortReserved), rows)
      else
        var i := FindRow(rows, preferred);
        if i < |rows| && rows[i].status != StatusReleased then (Err(PortInUse), rows)
        else Commit(rows, Row(preferred, project, StatusAllocated))
    else
      match NextFreePort(rows)
      case Err(f) => (Err(f), rows)
      case Ok(p) => Commit(rows, Row(p, project, StatusAllocated))
  }

  function Release(rows: seq<Row>, i: nat): seq<Row>
    requires i < |rows|
  {
    rows[i := rows[i].(status := StatusReleased)]
  }

  class Registry {
    var rows: seq<Row>

    constructor ()
      ensures rows == []
    {
      rows := [];
    }

    method LeastFreePort() returns (r: Result<nat>)
      ensures r == NextFreePort(rows)
    {
      var p := PORT_MIN;
      while p <= PORT_MAX
        invariant PORT_MIN <= p <= PORT_MAX + 1
        invariant NextFreePort(rows) == NextFree(rows, p)
      {
        if Free(rows, p) {
          return Ok(p);
        }
        p := p + 1;
      }
      r := Err(NoPortLeft);
    }

    method Insert(row: Row) returns (r: Result<Row>)
      modifies this
      ensures (r, rows) == Commit(old(rows), row)
    {
      if HasRow(rows, row.port) {
        return Err(IntegrityError);
      }
      rows := rows + [row];
      r := Ok(row);
    }

    method AllocatePort(project: string, preferred: int) returns (r: Result<Row>)
      modifies this
      ensures (r, rows) == Allocate(old(rows), project, preferred)
    {
      var port: int;
      if preferred != 0 {
        if Reserved(preferred) {
          return Err(PortReserved);
        }
        var i := FindRow(rows, preferred);
        if i < |rows| && rows[i].status != StatusReleased {
          return Err(PortInUse);
        }
        port := preferred;
      } else {
        var p := LeastFreePort();
        if p.Err? {
          return Err(p.failure);
        }
        port := p.value;
      }
      r := Insert(Row(port, project, StatusAllocated));
    }

    method ReleasePort(i: nat)
      requires i < |rows|
      modifies this
      ensures rows == old(rows)[i := Row(old(rows)[i].port, old(rows)[i].project, StatusReleased)]
      ensures rows == Release(old(rows), i)
    {
      rows := rows[i := rows[i].(status := StatusReleased)];
    }
  }

  // ---------- The least free port ----------

  /** The port found is the least assignable one not in use; the search fails exactly when
      there is none. */
  lemma NextFreePortIsLeast(rows: seq<Row>)
    ensures NextFreePort(rows).Err? <==> forall p :: Assignable(p) ==> InUse(rows, p)
    ensures NextFreePort(rows).Ok? ==>
              Free(rows, NextFreePort(rows).value) && forall p :: Free(rows, p) ==> NextFreePort(rows).value <= p
  {
    if NextFreePort(rows).Err? {
      forall p | Assignable(p) ensures InUse(rows, p) {
        assert !Free(rows, p);
      }
    }
  }

  /** The rows in use of the first n assignable ports, one row each. */
  lemma {:induction false} RowsInUse(rows: seq<Row>, n: nat) returns (idx: set<nat>)
    requires PORT_MIN <= n <= PORT_MAX + 1
    requires forall p :: PORT_MIN <= p < n && !Reserved(p) ==> InUse(rows, p)
    ensures forall i :: i in idx ==> i < |rows| && PORT_MIN <= rows[i].port < n && rows[i].status != StatusReleased
    ensures |idx| == n - PORT_MIN - (if n > 8000 then 1 else 0) - (if n > 9378 then 1 else 0)
  {
    if n == PORT_MIN {
      idx := {};
    } else {
      idx := RowsInUse(rows, n - 1);
      if !Reserved(n - 1) {
        assert InUse(rows, n - 1);
        var i: nat :| i < |rows| && rows[i].port == n - 1 && rows[i].status != StatusReleased;
        assert i !in idx;
        idx := idx + {i};
      }
    }
  }

  lemma {:induction false} IndexSetSize(idx: set<nat>, n: nat)
    requires forall i :: i in idx ==> i < n
    ensures |idx| <= n
  {
    if n > 0 {
      IndexSetSize(idx - {n - 1}, n - 1);
    } else {
      assert forall i :: i !in idx;
      assert idx == {};
    }
  }

  /** The registry runs out of ports only with all 1998 of them in use, so not before it
      holds 1998 rows. */
  lemma ExhaustionNeeds1998Rows(rows: seq<Row>)
    requires NextFreePort(rows).Err?
    ensures (forall p :: Assignable(p) ==> InUse(rows, p)) && |rows| >= 1998
  {
    NextFreePortIsLeast(rows);
    assert forall p :: PORT_MIN <= p < PORT_MAX + 1 && !Reserved(p) ==> Assignable(p);
    var idx := RowsInUse(rows, PORT_MAX + 1);
    IndexSetSize(idx, |rows|);
  }

  // ---------- Runs ----------

  datatype Call = Allocating(project: string, preferred: int) | Releasing(index: nat)

  function Handle(rows: seq<Row>, c: Call): seq<Row> {
    match c
    case Allocating(project, preferred) => Allocate(rows, project, preferred).1
    case Releasing(i) => if i < |rows| then Release(rows, i) else rows
  }

  function Run(rows: seq<Row>, calls: seq<Call>): seq<Row>
    decreases |calls|
  {
    if calls == [] then rows else Run(Handle(rows, calls[0]), calls[1..])
  }

  lemma {:induction false} PortsStayUnique(rows: seq<Row>, calls: seq<Call>)
    requires UniquePorts(rows)
    ensures UniquePorts(Run(rows, calls))
    decreases |calls|
  {
    if calls != [] {
      PortsStayUnique(Handle(rows, calls[0]), calls[1..]);
    }
  }

  /** A default allocation succeeds exactly when some port is free and the least free one
      has no row, not even a released one; then it gets that port. */
  lemma DefaultAllocationExactly(rows: seq<Row>, project: string)
    ensures var (r, rows') := Allocate(rows, project, 0);
            && (r.Ok? <==> NextFreePort(rows).Ok? && !HasRow(rows, NextFreePort(rows).value))
            && (r.Ok? ==> r.value.port == NextFreePort(rows).value && InUse(rows', r.value.port))
            && (r.Err? ==> rows' == rows)
  {
    var (r, rows') := Allocate(rows, project, 0);
    if r.Ok? {
      assert rows'[|rows|] == r.value;
    }
  }

  /** A port other than 0 can be allocated exactly when it is not reserved and was never
      in the registry: a released port cannot be had again. */
  lemma PreferredAllocationExactly(rows: seq<Row>, project: string, preferred: int)
    requires preferred != 0
    ensures Allocate(rows, project, preferred).0.Ok? <==> !Reserved(preferred) && !HasRow(rows, preferred)
  {
    var i := FindRow(rows, preferred);
    if HasRow(rows, preferred) {
      var k :| 0 <= k < |rows| && rows[k].port == preferred;
      assert i <= k;
    }
  }

  /** The least free port carries a released row. */
  predicate Stuck(rows: seq<Row>) {
    NextFreePort(rows).Ok? && HasRow(rows, NextFreePort(rows).value)
  }

  lemma StillFree(rows: seq<Row>, c: Call, p: int)
    requires UniquePorts(rows) && HasRow(rows, p) && !InUse(rows, p)
    ensures HasRow(Handle(rows, c), p) && !InUse(Handle(rows, c), p)
  {
    var rows' := Handle(rows, c);
    var k :| 0 <= k < |rows| && rows[k].port == p;
    assert rows'[k].port == p;
    forall i | 0 <= i < |rows'| && rows'[i].port == p ensures rows'[i].status == StatusReleased {
      if i < |rows| {
        assert rows[i].port == p;
      }
    }
  }

  /** A port that a call makes free has a row. */
  lemma NewlyFreeHasRow(rows: seq<Row>, c: Call, p: int)
    requires UniquePorts(rows) && InUse(rows, p) && !InUse(Handle(rows, c), p)
    ensures HasRow(Handle(rows, c), p)
  {
    var k :| 0 <= k < |rows| && rows[k].port == p && rows[k].status != StatusReleased;
    assert Handle(rows, c)[k].port == p;
  }

  lemma HandleKeepsUnique(rows: seq<Row>, c: Call)
    requires UniquePorts(rows)
    ensures UniquePorts(Handle(rows, c))
  {
  }

  lemma StaysStuck(rows: seq<Row>, c: Call)
    requires UniquePorts(rows) && Stuck(rows)
    ensures Stuck(Handle(rows, c))
  {
    var rows', p := Handle(rows, c), NextFreePort(rows).value;
    StillFree(rows, c, p);
    assert Free(rows', p);
    NextFreePortIsLeast(rows');
    var q := NextFreePort(rows').value;
    if q != p {
      assert q < p && !Free(rows, q);
      NewlyFreeHasRow(rows, c, q);
    }
  }

  /** Once the least free port carries a released row, default allocation fails for ever,
      whatever is allocated and released in between. */
  lemma {:induction false} StuckForEver(rows: seq<Row>, calls: seq<Call>, project: string)
    requires UniquePorts(rows) && Stuck(rows)
    ensures Allocate(Run(rows, calls), project, 0) == (Err(IntegrityError), Run(rows, calls))
    decreases |calls|
  {
    if calls != [] {
      StaysStuck(rows, calls[0]);
      HandleKeepsUnique(rows, calls[0]);
      StuckForEver(Handle(rows, calls[0]), calls[1..], project);
    } else {
      DefaultAllocationExactly(rows, project);
    }
  }

  /** With no port free, a call leaves none free or frees one that keeps its row. */
  lemma ExhaustedFails(rows: seq<Row>, c: Call)
    requires UniquePorts(rows) && NextFreePort(rows).Err?
    ensures NextFreePort(Handle(rows, c)).Err? || Stuck(Handle(rows, c))
  {
    var rows' := Handle(rows, c);
    if NextFreePort(rows').Ok? {
      var p := NextFreePort(rows').value;
      NextFreePortIsLeast(rows);
      NewlyFreeHasRow(rows, c, p);
    }
  }

  /** Every failed default allocation is final: whatever is allocated and released
      afterwards, no default allocation succeeds again. */
  lemma {:induction false} FailureIsForEver(rows: seq<Row>, calls: seq<Call>, project: string)
    requires UniquePorts(rows) && Allocate(rows, project, 0).0.Err?
    ensures Allocate(Run(rows, calls), project, 0).0.Err?
    decreases |calls|
  {
    DefaultAllocationExactly(rows, project);
    if calls != [] {
      var next := Handle(rows, calls[0]);
      if Stuck(rows) {
        StaysStuck(rows, calls[0]);
      } else {
        ExhaustedFails(rows, calls[0]);
      }
      HandleKeepsUnique(rows, calls[0]);
      DefaultAllocationExactly(next, project);
      FailureIsForEver(next, calls[1..], project);
    }
  }

  lemma OneRowForAPort(rows: seq<Row>, i: nat, k: nat)
    requires UniquePorts(rows) && i < |rows| && k < |rows| && rows[i].port == rows[k].port
    ensures i == k
  {
  }

  /** It takes one release: of a port with no free port below it. */
  lemma ReleaseBelowAllFreePortsSticks(rows: seq<Row>, i: nat)
    requires UniquePorts(rows) && i < |rows| && Assignable(rows[i].port)
    requires forall p :: Free(rows, p) ==> rows[i].port <= p
    ensures Stuck(Release(rows, i))
  {
    var rows', p := Release(rows, i), rows[i].port;
    assert rows'[i].port == p;
    assert !InUse(rows', p) by {
      forall k | 0 <= k < |rows'| && rows'[k].port == p ensures rows'[k].status == StatusReleased {
        OneRowForAPort(rows, i, k);
      }
    }
    assert Free(rows', p);
    NextFreePortIsLeast(rows');
    var q := NextFreePort(rows').value;
    if q != p {
      assert q < p && !Free(rows, q);
      assert InUse(rows, q);
      NewlyFreeHasRow(rows, Releasing(i), q);
    }
  }

  /** From an empty registry two calls are enough: one default allocation and its release. */
  lemma TwoCallsCanStick(project: string)
    ensures Stuck(Run([], [Allocating(project, 0), Releasing(0)]))
  {
    var calls, row := [Allocating(project, 0), Releasing(0)], Row(8001, project, StatusAllocated);
    assert !Free([], 8000) && Free([], 8001);
    assert NextFree([], 8001) == Ok(8001) && NextFreePort([]) == Ok(8001);
    assert Handle([], calls[0]) == [row];
    assert [row][0].port == 8001;
    assert forall p :: Free([row], p) ==> 8001 <= p;
    ReleaseBelowAllFreePortsSticks([row], 0);
    assert calls[1..][1..] == [];
    assert Run([], calls) == Run([row], calls[1..]) == Run(Release([row], 0), []);
  }

  // ---------- The whole result of an allocation ----------

  /** 1998 ports can be assigned. */
  lemma AssignableExactly(p: int)
    ensures Assignable(p) <==> 8001 <= p <= 9999 && p != 9378
  {
  }

  /** What asking for a port comes to: twelve ports are refused, a port in use is refused, a
      released one fails at the unique column, and any other is granted with its project. */
  lemma PreferredResultExactly(rows: seq<Row>, project: string, preferred: int)
    requires UniquePorts(rows) && preferred != 0
    ensures Allocate(rows, project, preferred)
         == if preferred in {3000, 3001, 3002, 3003, 5432, 5555, 6379, 7474, 7687, 8000, 9378, 11434}
            then (Err(PortReserved), rows)
            else if exists i :: 0 <= i < |rows| && rows[i].port == preferred
                             && (rows[i].status == StatusAllocated || rows[i].status == StatusReserved)
            then (Err(PortInUse), rows)
            else if exists i :: 0 <= i < |rows| && rows[i].port == preferred then (Err(IntegrityError), rows)
            else (Ok(Row(preferred, project, StatusAllocated)), rows + [Row(preferred, project, StatusAllocated)])
  {
    var i := FindRow(rows, preferred);
    if HasRow(rows, preferred) {
      var k :| 0 <= k < |rows| && rows[k].port == preferred;
      assert i <= k;
      forall j: nat | j < |rows| && rows[j].port == preferred ensures j == i {
        OneRowForAPort(rows, i, j);
      }
      assert rows[i].status.StatusAllocated? || rows[i].status.StatusReserved? || rows[i].status.StatusReleased?;
    }
  }

  /** What asking for any port comes to, p being the least one that can be assigned and is
      not in use. */
  lemma DefaultResultExactly(rows: seq<Row>, project: string, p: int)
    requires 8001 <= p <= 9999 && p != 9378 && !InUse(rows, p)
    requires forall q :: 8001 <= q < p && q != 9378 ==> InUse(rows, q)
    ensures Allocate(rows, project, 0)
         == if exists i :: 0 <= i < |rows| && rows[i].port == p then (Err(IntegrityError), rows)
            else (Ok(Row(p, project, StatusAllocated)), rows + [Row(p, project, StatusAllocated)])
  {
    NextFreePortIsLeast(rows);
    assert Free(rows, p);
    var q := NextFreePort(rows).value;
    assert Free(rows, q) && q <= p;
    AssignableExactly(q);
    assert q == p;
  }

  lemma NoPortLeftExactly(rows: seq<Row>, project: string)
    ensures Allocate(rows, project, 0) == (Err(NoPortLeft), rows)
       <==> forall q :: 8001 <= q <= 9999 && q != 9378 ==> InUse(rows, q)
  {
    NextFreePortIsLeast(rows);
    assert forall q :: Assignable(q) <==> 8001 <= q <= 9999 && q != 9378;
  }
}
